/** The start-up block of the script: the check that `EVENT_IDS` and
    `EVENT_DATES` have the same length, and one pass of the polling loop,
    which checks event i with date i after a random pause. */
module Startup {
  import opened JsonValue
  import opened Offers
  import opened EventCheck

  datatype Resource = Resource(id: string, date: string)

  /** Either the fatal mismatch (with the two counts the error log reports) or
      the configured events, each paired with its date. */
  datatype Config = Mismatch(idCount: nat, dateCount: nat) | Ready(resources: seq<Resource>)

  function Configure(ids: seq<string>, dates: seq<string>): Config {
    if |ids| != |dates| then Mismatch(|ids|, |dates|)
    else Ready(seq(|ids|, i requires 0 <= i < |ids| => Resource(ids[i], dates[i])))
  }

  function Ids(rs: seq<Resource>): seq<string> {
    seq(|rs|, i requires 0 <= i < |rs| => rs[i].id)
  }

  function Dates(rs: seq<Resource>): seq<string> {
    seq(|rs|, i requires 0 <= i < |rs| => rs[i].date)
  }

  /** Start-up fails exactly on a length mismatch; otherwise the pairs split
      back into the two configured lists, so event i always goes with date i. */
  lemma ConfigurePairs(ids: seq<string>, dates: seq<string>)
    ensures Configure(ids, dates).Mismatch? <==> |ids| != |dates|
    ensures Configure(ids, dates).Mismatch? ==> Configure(ids, dates) == Mismatch(|ids|, |dates|)
    ensures Configure(ids, dates).Ready? ==>
      Ids(Configure(ids, dates).resources) == ids && Dates(Configure(ids, dates).resources) == dates
  {
  }

  /** What each event's check does within a pass: `fetches[i]` is what the
      request for event i returns. */
  function CheckEffects(ids: seq<string>, dates: seq<string>, fetches: seq<Fetch>): (es: seq<seq<Event>>)
    requires |ids| <= |dates| && |ids| <= |fetches|
    ensures |es| == |ids|
  {
    seq(|ids|, i requires 0 <= i < |ids| => CheckSpec(fetches[i], ids[i], dates[i]).effects)
  }

  /** The first n visits of a pass, given each check's effects: for visit i, a
      random pause, the check marker of event i with date i, then its effects. */
  function Pass(ids: seq<string>, dates: seq<string>, es: seq<seq<Event>>, n: nat): seq<Event>
    requires n <= |ids| <= |dates| && |ids| <= |es|
  {
    if n == 0 then [] else Pass(ids, dates, es, n - 1) + ([Delay, Check(ids[n - 1], dates[n - 1])] + es[n - 1])
  }

  /** One whole pass of the `while True` body over `EVENT_IDS`. */
  function Cycle(ids: seq<string>, dates: seq<string>, fetches: seq<Fetch>): seq<Event>
    requires |ids| <= |dates| && |ids| <= |fetches|
  {
    Pass(ids, dates, CheckEffects(ids, dates, fetches), |ids|)
  }

  /** One pass of the `while True` body: for every index, a random pause, then the
      check of that event with the date at the same index. */
  method PollCycle(ids: seq<string>, dates: seq<string>, fetches: seq<Fetch>) returns (trace: seq<Event>)
    requires |ids| <= |dates| && |ids| <= |fetches|
    ensures trace == Cycle(ids, dates, fetches)
  {
    ghost var es := CheckEffects(ids, dates, fetches);
    trace := [];
    for index := 0 to |ids|
      invariant trace == Pass(ids, dates, es, index)
    {
      var eventDate := dates[index];
      var _, effects := CheckApiForEvent(fetches[index], ids[index], eventDate);
      assert es[index] == effects;
      trace := trace + ([Delay, Check(ids[index], eventDate)] + effects);
    }
  }

  /** Start-up followed by one pass: a mismatch exits before any request;
      otherwise the pass runs over the configured events. */
  method StartAndPoll(ids: seq<string>, dates: seq<string>, fetches: seq<Fetch>) returns (config: Config, trace: seq<Event>)
    requires |ids| <= |fetches|
    ensures config == Configure(ids, dates)
    ensures config.Mismatch? ==> trace == []
    ensures config.Ready? ==> trace == Cycle(ids, dates, fetches)
  {
    config := Configure(ids, dates);
    if config.Mismatch? {
      trace := [];
      return;
    }
    trace := PollCycle(ids, dates, fetches);
  }

  /** The events of the Check kind, in order. */
  function Checks(es: seq<Event>): seq<Event> {
    if es == [] then [] else (if es[0].Check? then [es[0]] else []) + Checks(es[1..])
  }

  lemma {:induction false} ChecksAppend(a: seq<Event>, b: seq<Event>)
    ensures Checks(a + b) == Checks(a) + Checks(b)
    decreases |a|
  {
    if a == [] {
      assert a + b == b;
    } else {
      assert (a + b)[0] == a[0] && (a + b)[1..] == a[1..] + b;
      ChecksAppend(a[1..], b);
    }
  }

  /** A check's own effects are only messages and pauses. */
  lemma {:induction false} ProcessHasNoChecks(fs: seq<Formatted>)
    ensures Checks(Process(fs).effects) == []
    decreases |fs|
  {
    if fs != [] && fs[0].Message? {
      ProcessHasNoChecks(fs[1..]);
      var head := [Sent(fs[0].text)] + (if |fs| > 1 then [Pause] else []);
      ChecksAppend(head, Process(fs[1..]).effects);
      assert Checks(head) == [] by {
        assert head[1..] == if |fs| > 1 then [Pause] else [];
        assert [Pause][1..] == [];
      }
    }
  }

  /** No check marker comes out of a check itself. */
  lemma CheckHasNoChecks(fetch: Fetch, eventId: string, date: string)
    ensures Checks(CheckSpec(fetch, eventId, date).effects) == []
  {
    match fetch
    case Body(data) =>
      if !PyEq(data, EMPTY_RESPONSE) && HasOffers(data) {
        ProcessHasNoChecks(Formats(OffersOf(data), eventId, date));
      }
    case _ =>
  }

  /** The check markers of the first n visits are those of events 0 .. n-1, with
      their dates, when the checks' own effects hold none. */
  lemma {:induction false} PassChecks(ids: seq<string>, dates: seq<string>, es: seq<seq<Event>>, n: nat)
    requires n <= |ids| <= |dates| && |ids| <= |es|
    requires forall i :: 0 <= i < n ==> Checks(es[i]) == []
    ensures |Checks(Pass(ids, dates, es, n))| == n
    ensures forall i :: 0 <= i < n ==> Checks(Pass(ids, dates, es, n))[i] == Check(ids[i], dates[i])
  {
    if n > 0 {
      var i := n - 1;
      var marker := [Delay, Check(ids[i], dates[i])];
      PassChecks(ids, dates, es, i);
      ChecksAppend(Pass(ids, dates, es, i), marker + es[i]);
      ChecksAppend(marker, es[i]);
      assert Checks(marker) == [Check(ids[i], dates[i])] by {
        assert marker[1..] == [Check(ids[i], dates[i])];
        assert [Check(ids[i], dates[i])][1..] == [];
      }
    }
  }

  /** In a pass the i-th event checked is `ids[i]` with `dates[i]`, and every
      event is checked once, in list order. */
  lemma CyclePairsIndices(ids: seq<string>, dates: seq<string>, fetches: seq<Fetch>)
    requires |ids| <= |dates| && |ids| <= |fetches|
    ensures |Checks(Cycle(ids, dates, fetches))| == |ids|
    ensures forall i :: 0 <= i < |ids| ==> Checks(Cycle(ids, dates, fetches))[i] == Check(ids[i], dates[i])
  {
    var es := CheckEffects(ids, dates, fetches);
    forall i | 0 <= i < |ids| ensures Checks(es[i]) == [] {
      CheckHasNoChecks(fetches[i], ids[i], dates[i]);
    }
    PassChecks(ids, dates, es, |ids|);
  }
}
