/** `check_api_for_event` after the HTTP request: the comparison with the empty
    response, the look-up of `offers`, and the loop that sends one notification
    per offer with a one-second pause between consecutive ones. Sending and
    sleeping are recorded as events in the order they happen. */
module EventCheck {
  import opened Text
  import opened JsonValue
  import opened Offers

  /** What the HTTP layer hands over: the decoded body, a request that failed
      (transport error or a non-2xx status), or a body that is not JSON. */
  datatype Fetch = Body(data: Json) | NetworkError | NotJson

  /** The observable effects of the bot, in order: a Telegram message sent, the
      one-second pause between offers, the random pause before each request,
      and the start of the check of one event with its date. */
  datatype Event = Sent(text: string) | Pause | Delay | Check(eventId: string, date: string)

  /** How one check ended (each ending is a different log line in the source). */
  datatype Ending =
    | NetworkFailure  // `requests.exceptions.RequestException`
    | DecodeFailure   // `json.JSONDecodeError`
    | NoData          // the body equals the empty response
    | Warned          // non-empty body without a non-empty `offers` list
    | Completed       // every offer was sent
    | Unexpected      // an exception reached the outer `except Exception`

  datatype Report = Report(ending: Ending, effects: seq<Event>)

  /** What formatting makes of each offer, in array order. */
  function Formats(offers: seq<Json>, eventId: string, date: string): (fs: seq<Formatted>)
    ensures |fs| == |offers|
  {
    seq(|offers|, i requires 0 <= i < |offers| => OfferMessage(offers[i], eventId, date))
  }

  /** The `for i, offer in enumerate(offers_data)` loop, given each offer's
      formatting: each message is sent, followed by a pause unless it is the
      last; an offer whose processing raises ends the loop with what was sent
      so far. */
  function Process(fs: seq<Formatted>): Report
    decreases |fs|
  {
    if fs == [] then Report(Completed, [])
    else
      match fs[0]
      case Raised => Report(Unexpected, [])
      case Message(text) =>
        var rest := Process(fs[1..]);
        Report(rest.ending, [Sent(text)] + (if |fs| > 1 then [Pause] else []) + rest.effects)
  }

  /** The offers list when the body is a dict whose `offers` is a non-empty list. */
  predicate HasOffers(data: Json) {
    data.JObject? && match Get(data.members, "offers")
      case Some(JArray(xs)) => xs != []
      case _ => false
  }

  function OffersOf(data: Json): seq<Json>
    requires HasOffers(data)
  {
    Get(data.members, "offers").value.items
  }

  /** What one check does, given what the request returned. A body that is not
      a dict fails already at `data.get('offers')`. */
  function CheckSpec(fetch: Fetch, eventId: string, date: string): Report {
    match fetch
    case NetworkError => Report(NetworkFailure, [])
    case NotJson => Report(DecodeFailure, [])
    case Body(data) =>
      if PyEq(data, EMPTY_RESPONSE) then Report(NoData, [])
      else if !data.JObject? then Report(Unexpected, [])
      else if HasOffers(data) then Process(Formats(OffersOf(data), eventId, date))
      else Report(Warned, [])
  }

  method CheckApiForEvent(fetch: Fetch, eventId: string, date: string) returns (ending: Ending, effects: seq<Event>)
    ensures Report(ending, effects) == CheckSpec(fetch, eventId, date)
  {
    effects := [];
    if fetch.NetworkError? {
      ending := NetworkFailure;
      return;
    }
    if fetch.NotJson? {
      ending := DecodeFailure;
      return;
    }
    var data := fetch.data;
    if PyEq(data, EMPTY_RESPONSE) {
      ending := NoData;
      return;
    }
    if !data.JObject? {
      ending := Unexpected;
      return;
    }
    var offersData := Get(data.members, "offers");
    if offersData.Some? && offersData.value.JArray? && offersData.value.items != [] {
      assert HasOffers(data) && OffersOf(data) == offersData.value.items;
      ending, effects := SendOffers(offersData.value.items, eventId, date);
    } else {
      ending := Warned;
    }
  }

  /** The body of the `for` loop over `offers_data`: format offer i, send it,
      and sleep one second if another offer follows. */
  method SendOffers(offers: seq<Json>, eventId: string, date: string) returns (ending: Ending, effects: seq<Event>)
    ensures Report(ending, effects) == Process(Formats(offers, eventId, date))
  {
    ghost var fs := Formats(offers, eventId, date);
    effects := [];
    var i := 0;
    assert fs[0..] == fs;
    while i < |offers|
      invariant 0 <= i <= |offers|
      invariant Resumes(fs, i, effects)
    {
      var formatted := OfferMessage(offers[i], eventId, date);
      assert fs[i] == formatted;
      if formatted.Raised? {
        ResumeRaised(fs, i, effects);
        ending := Unexpected;
        return;
      }
      ResumeSent(fs, i, effects);
      effects := effects + [Sent(formatted.text)];
      if |offers| > 1 && i < |offers| - 1 {
        effects := effects + [Pause];
      }
      i := i + 1;
    }
    ResumeDone(fs, effects);
    ending := Completed;
  }

  /** Loop invariant of SendOffers: after the effects so far, the rest of the
      run is that of the offers from i on. */
  ghost predicate Resumes(fs: seq<Formatted>, i: nat, effects: seq<Event>)
    requires i <= |fs|
  {
    Process(fs) == Report(Process(fs[i..]).ending, effects + Process(fs[i..]).effects)
  }

  /** Offer i formats: the run goes on from i + 1 after its message and, unless
      it is the last, a pause. */
  lemma ResumeSent(fs: seq<Formatted>, i: nat, effects: seq<Event>)
    requires i < |fs| && fs[i].Message? && Resumes(fs, i, effects)
    ensures Resumes(fs, i + 1, effects + [Sent(fs[i].text)] + (if i < |fs| - 1 then [Pause] else []))
  {
    assert fs[i..][1..] == fs[i + 1..];
    var step := [Sent(fs[i].text)] + (if i < |fs| - 1 then [Pause] else []);
    var rest := Process(fs[i + 1..]).effects;
    assert effects + (step + rest) == effects + step + rest;
    if i < |fs| - 1 {
      assert effects + step == effects + [Sent(fs[i].text)] + [Pause];
    } else {
      assert effects + step == effects + [Sent(fs[i].text)];
    }
  }

  /** Offer i raises: the run ends with the effects so far. */
  lemma ResumeRaised(fs: seq<Formatted>, i: nat, effects: seq<Event>)
    requires i < |fs| && fs[i].Raised? && Resumes(fs, i, effects)
    ensures Process(fs) == Report(Unexpected, effects)
  {
    assert effects + [] == effects;
  }

  /** All offers handled: the run is complete. */
  lemma ResumeDone(fs: seq<Formatted>, effects: seq<Event>)
    requires Resumes(fs, |fs|, effects)
    ensures Process(fs) == Report(Completed, effects)
  {
    assert fs[|fs|..] == [];
    assert effects + [] == effects;
  }

  /** Reference shape of a run of notifications: messages alternating with
      pauses, a pause between each consecutive pair and none after the last. */
  function Interleaved(texts: seq<string>): (es: seq<Event>) {
    if texts == [] then []
    else
      seq(2 * |texts| - 1, j requires 0 <= j < 2 * |texts| - 1 =>
        if j % 2 == 0 then Sent(texts[j / 2]) else Pause)
  }

  lemma InterleavedCons(t: string, texts: seq<string>)
    requires texts != []
    ensures Interleaved([t] + texts) == [Sent(t), Pause] + Interleaved(texts)
  {
    var a, b := Interleaved([t] + texts), [Sent(t), Pause] + Interleaved(texts);
    assert |a| == |b|;
    forall j | 0 <= j < |a| ensures a[j] == b[j] {
      if j >= 2 {
        assert (j - 2) / 2 == j / 2 - 1 && (j - 2) % 2 == j % 2;
      }
    }
  }

  /** The texts of the offers up to the first one that raises. */
  function SentPrefix(fs: seq<Formatted>): (texts: seq<string>)
    ensures |texts| <= |fs|
    decreases |fs|
  {
    if fs == [] then []
    else
      match fs[0]
      case Raised => []
      case Message(text) => [text] + SentPrefix(fs[1..])
  }

  /** The prefix holds the texts of the leading messages, and it stops only at
      the end or at an offer that raised. */
  lemma {:induction false} SentPrefixStops(fs: seq<Formatted>)
    ensures var texts := SentPrefix(fs);
      (forall j :: 0 <= j < |texts| ==> fs[j] == Message(texts[j])) &&
      (|texts| < |fs| ==> fs[|texts|] == Raised)
    decreases |fs|
  {
    if fs != [] && fs[0].Message? {
      SentPrefixStops(fs[1..]);
      var texts := SentPrefix(fs);
      assert texts[1..] == SentPrefix(fs[1..]);
      forall j | 1 <= j < |texts| ensures fs[j] == Message(texts[j]) {
        assert fs[j] == fs[1..][j - 1] && texts[j] == texts[1..][j - 1];
      }
    }
  }

  /** The offers loop, characterised: the offers before the first failing one
      are sent in array order with pauses between them; if an offer fails, the
      pause after the last sent one has happened and nothing else follows. */
  lemma {:induction false} ProcessShape(fs: seq<Formatted>)
    ensures var texts := SentPrefix(fs);
      Process(fs) ==
        Report(if |texts| == |fs| then Completed else Unexpected,
               Interleaved(texts) + (if 0 < |texts| < |fs| then [Pause] else []))
    decreases |fs|
  {
    if fs != [] && fs[0].Message? {
      var text := fs[0].text;
      var rest := SentPrefix(fs[1..]);
      ProcessShape(fs[1..]);
      assert SentPrefix(fs) == [text] + rest;
      if rest != [] {
        InterleavedCons(text, rest);
      }
    }
  }

  /** The texts of the Sent events, in order. */
  function SentTexts(es: seq<Event>): seq<string> {
    if es == [] then []
    else (if es[0].Sent? then [es[0].text] else []) + SentTexts(es[1..])
  }

  function PauseCount(es: seq<Event>): nat {
    if es == [] then 0 else (if es[0] == Pause then 1 else 0) + PauseCount(es[1..])
  }

  lemma {:induction false} CountsAppend(a: seq<Event>, b: seq<Event>)
    ensures SentTexts(a + b) == SentTexts(a) + SentTexts(b)
    ensures PauseCount(a + b) == PauseCount(a) + PauseCount(b)
    decreases |a|
  {
    if a == [] {
      assert a + b == b;
    } else {
      assert (a + b)[0] == a[0] && (a + b)[1..] == a[1..] + b;
      CountsAppend(a[1..], b);
    }
  }

  /** An interleaved run sends exactly its texts, in order, with one pause fewer. */
  lemma {:induction false} InterleavedCounts(texts: seq<string>)
    requires texts != []
    ensures SentTexts(Interleaved(texts)) == texts
    ensures PauseCount(Interleaved(texts)) == |texts| - 1
    decreases |texts|
  {
    if |texts| == 1 {
      assert Interleaved(texts) == [Sent(texts[0])];
      assert [Sent(texts[0])][1..] == [];
    } else {
      InterleavedCounts(texts[1..]);
      InterleavedCons(texts[0], texts[1..]);
      assert [texts[0]] + texts[1..] == texts;
      CountsAppend([Sent(texts[0]), Pause], Interleaved(texts[1..]));
      assert [Sent(texts[0]), Pause][1..] == [Pause];
      assert [Pause][1..] == [];
    }
  }

  /** A body equal to `{"groups": [], "offers": []}` ends the check with nothing sent. */
  lemma CheckNoData(data: Json, eventId: string, date: string)
    requires PyEq(data, EMPTY_RESPONSE)
    ensures CheckSpec(Body(data), eventId, date) == Report(NoData, [])
    ensures data.JObject? && Keys(data.members) == {"groups", "offers"}
  {
    EqualsEmptyResponse(data);
  }

  /** A dict body other than the empty response, whose `offers` is missing, not a
      list, or empty, gives one warning and sends nothing; any other dict body
      goes through the offers loop. */
  lemma CheckWarning(data: Json, eventId: string, date: string)
    requires data.JObject? && !PyEq(data, EMPTY_RESPONSE)
    ensures CheckSpec(Body(data), eventId, date).ending == Warned <==>
      (Get(data.members, "offers").None? ||
       !Get(data.members, "offers").value.JArray? ||
       Get(data.members, "offers").value.items == [])
    ensures CheckSpec(Body(data), eventId, date).ending == Warned ==>
      CheckSpec(Body(data), eventId, date).effects == []
  {
    if HasOffers(data) {
      ProcessShape(Formats(OffersOf(data), eventId, date));
    }
  }

  /** Every offer formats: each message is sent once, in order, with one pause
      fewer than messages, and the loop completes. */
  lemma ProcessAllSent(fs: seq<Formatted>)
    requires fs != [] && forall j :: 0 <= j < |fs| ==> fs[j].Message?
    ensures Process(fs).ending == Completed
    ensures |SentTexts(Process(fs).effects)| == |fs|
    ensures forall j :: 0 <= j < |fs| ==> SentTexts(Process(fs).effects)[j] == fs[j].text
    ensures PauseCount(Process(fs).effects) == |fs| - 1
  {
    var texts := SentPrefix(fs);
    ProcessShape(fs);
    SentPrefixStops(fs);
    InterleavedCounts(texts);
    assert Interleaved(texts) + [] == Interleaved(texts);
  }

  /** Offer k is the first to raise: the messages of offers 0 .. k-1 stand, with
      k pauses (the last one after message k-1), and the loop ends unexpectedly. */
  lemma ProcessAbortsAt(fs: seq<Formatted>, k: nat)
    requires k < |fs| && fs[k].Raised?
    requires forall j :: 0 <= j < k ==> fs[j].Message?
    ensures Process(fs).ending == Unexpected
    ensures |SentTexts(Process(fs).effects)| == k
    ensures forall j :: 0 <= j < k ==> SentTexts(Process(fs).effects)[j] == fs[j].text
    ensures PauseCount(Process(fs).effects) == k
  {
    var texts := SentPrefix(fs);
    ProcessShape(fs);
    SentPrefixStops(fs);
    assert |texts| == k;
    if k > 0 {
      InterleavedCounts(texts);
      CountsAppend(Interleaved(texts), [Pause]);
      assert SentTexts([Pause]) == [] by { assert [Pause][1..] == []; }
      assert PauseCount([Pause]) == 1 by { assert [Pause][1..] == []; }
    }
  }

  /** All offers format: one message per offer, in array order, and n - 1 pauses. */
  lemma CheckAllSent(data: Json, eventId: string, date: string)
    requires !PyEq(data, EMPTY_RESPONSE) && HasOffers(data)
    requires forall k :: 0 <= k < |OffersOf(data)| ==> OfferMessage(OffersOf(data)[k], eventId, date).Message?
    ensures var r := CheckSpec(Body(data), eventId, date);
      var offers := OffersOf(data);
      r.ending == Completed &&
      |SentTexts(r.effects)| == |offers| &&
      (forall k :: 0 <= k < |offers| ==> SentTexts(r.effects)[k] == OfferMessage(offers[k], eventId, date).text) &&
      PauseCount(r.effects) == |offers| - 1
  {
    var fs := Formats(OffersOf(data), eventId, date);
    assert CheckSpec(Body(data), eventId, date) == Process(fs);
    ProcessAllSent(fs);
  }

  /** Offer k raises: the messages for offers 0 .. k-1 stay sent (with their k
      pauses), the remaining offers are abandoned and the check ends through
      the outer exception handler. */
  lemma CheckAbortsAt(data: Json, eventId: string, date: string, k: nat)
    requires !PyEq(data, EMPTY_RESPONSE) && HasOffers(data)
    requires k < |OffersOf(data)| && OfferMessage(OffersOf(data)[k], eventId, date).Raised?
    requires forall j :: 0 <= j < k ==> OfferMessage(OffersOf(data)[j], eventId, date).Message?
    ensures var r := CheckSpec(Body(data), eventId, date);
      var offers := OffersOf(data);
      r.ending == Unexpected &&
      |SentTexts(r.effects)| == k &&
      (forall j :: 0 <= j < k ==> SentTexts(r.effects)[j] == OfferMessage(offers[j], eventId, date).text) &&
      PauseCount(r.effects) == k
  {
    var fs := Formats(OffersOf(data), eventId, date);
    assert CheckSpec(Body(data), eventId, date) == Process(fs);
    ProcessAbortsAt(fs, k);
  }
}
