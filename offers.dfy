/** The per-offer formatter of `check_api_for_event`: the offer type, the price
    string computed from `price.total` in cents, and the four-line notification. */
module Offers {
  import opened Text
  import opened JsonValue
  import opened PyRepr

  /** What the price block makes of an offer's `price` entry. */
  datatype Price =
    | NotAvailable            // no usable `price.total`: "N/A"
    | Amount(cents: int)      // an int (or bool) `total`, rendered as total / 100
    | InvalidFormat(raw: Json) // a `total` that is not a number
    | ErrorProcessing         // the lookup `price_info['total']` raised a TypeError

  /** The price entry as the source reads it. None: evaluating
      `'total' in price_info` raised, outside the inner `try`. */
  function ClassifyPrice(info: Option<Json>): Option<Price> {
    match info
    case None => Some(NotAvailable)
    case Some(v) =>
      match v
      case JNull => Some(NotAvailable)
      case JBool(b) => if b then None else Some(NotAvailable)
      case JInt(n) => if n != 0 then None else Some(NotAvailable)
      case JString(s) => if Contains(s, "total") then Some(ErrorProcessing) else Some(NotAvailable)
      case JArray(xs) =>
        if exists i :: 0 <= i < |xs| && PyEq(xs[i], JString("total")) then Some(ErrorProcessing)
        else Some(NotAvailable)
      case JObject(ms) =>
        match Get(ms, "total")
        case None => Some(NotAvailable)
        case Some(raw) =>
          match raw
          case JInt(t) => Some(Amount(t))
          case JBool(b) => Some(Amount(if b then 1 else 0))
          case _ => Some(InvalidFormat(raw))
  }

  /** `f"{t / 100:.2f}"` for an integer number of cents `t`. */
  function FormatCents(t: int): (s: string)
    ensures |s| >= 4 && s[|s| - 3] == '.' && IsDigit(s[|s| - 2]) && IsDigit(s[|s| - 1])
    ensures (s[0] == '-') <==> t < 0
    ensures var k := if t < 0 then 1 else 0; s[k] == '0' ==> s[k + 1] == '.'
  {
    var m := if t < 0 then -t else t;
    (if t < 0 then "-" else "") + (NatToString(m / 100) + ("." + [DigitChar(m % 100 / 10), DigitChar(m % 10)]))
  }

  /** Reads a two-decimal amount back into cents. */
  function ParseCents(s: string): Option<int> {
    if |s| >= 1 && s[0] == '-' then
      match ParseUnsignedCents(s[1..])
      case Some(m) => Some(-m)
      case None => None
    else ParseUnsignedCents(s)
  }

  /** An unsigned amount: digits, a point, exactly two digits. */
  function ParseUnsignedCents(b: string): Option<int> {
    var parts := Split(b, '.');
    if |parts| == 2 && |parts[0]| >= 1 && AllDigits(parts[0]) && |parts[1]| == 2 && AllDigits(parts[1]) then
      Some(ParseDigits(parts[0]) * 100 + ParseDigits(parts[1]))
    else None
  }

  /** The price string carries the exact amount: reading it back gives the cents. */
  lemma ParseFormatCents(t: int)
    ensures ParseCents(FormatCents(t)) == Some(t)
  {
    var m := if t < 0 then -t else t;
    var digits, frac := NatToString(m / 100), [DigitChar(m % 100 / 10), DigitChar(m % 10)];
    ParseNatToString(m / 100);
    ParseTwoDigits(m % 100 / 10, m % 10);
    DecimalSplit(m);
    ParseUnsignedParts(digits, frac);
    ParseSign(t < 0, digits + ("." + frac), m);
  }

  /** A leading minus sign negates the amount that follows it. */
  lemma ParseSign(neg: bool, body: string, m: int)
    requires |body| >= 1 && IsDigit(body[0]) && ParseUnsignedCents(body) == Some(m)
    ensures ParseCents((if neg then "-" else "") + body) == Some(if neg then -m else m)
  {
    if neg {
      assert ("-" + body)[1..] == body;
    } else {
      assert "" + body == body;
    }
  }

  lemma DecimalSplit(m: nat)
    ensures m == m / 100 * 100 + (m % 100 / 10 * 10 + m % 10)
  {
  }

  lemma ParseTwoDigits(a: nat, b: nat)
    requires a < 10 && b < 10
    ensures ParseDigits([DigitChar(a), DigitChar(b)]) == a * 10 + b
  {
    var s := [DigitChar(a), DigitChar(b)];
    assert s[..1] == [DigitChar(a)];
    assert [DigitChar(a)][..0] == [];
    assert ParseDigits([DigitChar(a)]) == a;
  }

  /** ParseUnsignedCents reads the whole part and the two decimals. */
  lemma ParseUnsignedParts(digits: string, frac: string)
    requires |digits| >= 1 && AllDigits(digits) && |frac| == 2 && AllDigits(frac)
    ensures ParseUnsignedCents(digits + ("." + frac)) == Some(ParseDigits(digits) * 100 + ParseDigits(frac))
  {
    JoinTwo(digits, frac, ".");
    DigitsHaveNoPoint(digits);
    DigitsHaveNoPoint(frac);
    SplitJoin([digits, frac], '.');
    var parts := Split(digits + ("." + frac), '.');
    assert parts == [digits, frac];
    assert parts[0] == digits && parts[1] == frac;
    assert |parts| == 2 && |parts[0]| >= 1 && AllDigits(parts[0]) && |parts[1]| == 2 && AllDigits(parts[1]);
    assert ParseUnsignedCents(digits + ("." + frac)).Some?;
    assert ParseUnsignedCents(digits + ("." + frac)).value == ParseDigits(parts[0]) * 100 + ParseDigits(parts[1]);
  }

  lemma JoinTwo(a: string, b: string, sep: string)
    ensures Join(sep, [a, b]) == a + (sep + b)
  {
    assert [a, b][1..] == [b];
  }

  lemma DigitsHaveNoPoint(s: string)
    requires AllDigits(s)
    ensures Free(s, '.')
  {
    assert forall i :: 0 <= i < |s| ==> IsDigit(s[i]);
  }

  lemma FormatCentsExample()
    ensures FormatCents(15000) == "150.00"
    ensures FormatCents(-5) == "-0.05"
  {
    assert NatToString(150) == NatToString(15) + "0";
    assert NatToString(15) == "15";
  }

  function RenderPrice(p: Price): string {
    match p
    case NotAvailable => "N/A"
    case Amount(t) => FormatCents(t)
    case InvalidFormat(raw) => "Invalid format (" + Str(raw) + ")"
    case ErrorProcessing => "Error processing"
  }

  /** `offer.get('offerTypeDescription', 'N/A')`, as the f-string renders it. */
  function TypeText(offer: seq<Member>): string {
    match Get(offer, "offerTypeDescription")
    case None => "N/A"
    case Some(v) => Str(v)
  }

  const LINK_PREFIX: string := "https://a.com/b/"

  /** The four lines of one notification. */
  function MessageLines(typeText: string, date: string, priceText: string, eventId: string): seq<string> {
    ["ENTRADA: " + typeText, "DIA: " + date, "PRECIO: " + priceText + ".", "LINK: " + LINK_PREFIX + eventId]
  }

  /** The text of one offer's notification, or Raised when processing the offer
      raises out of the loop (the offer is not a dict, or its price entry is a
      non-zero number or `true`). */
  datatype Formatted = Message(text: string) | Raised

  function OfferMessage(offer: Json, eventId: string, date: string): Formatted {
    if !offer.JObject? then Raised
    else
      match ClassifyPrice(Get(offer.members, "price"))
      case None => Raised
      case Some(p) => Message(Join("\n", MessageLines(TypeText(offer.members), date, RenderPrice(p), eventId)))
  }

  /** Each notification is exactly the four template lines, provided none of the
      inserted texts contains a line break of its own. */
  lemma MessageHasFourLines(ms: seq<Member>, eventId: string, date: string, p: Price)
    requires ClassifyPrice(Get(ms, "price")) == Some(p)
    requires Free(TypeText(ms), '\n') && Free(date, '\n') && Free(RenderPrice(p), '\n') && Free(eventId, '\n')
    ensures OfferMessage(JObject(ms), eventId, date).Message?
    ensures Split(OfferMessage(JObject(ms), eventId, date).text, '\n') ==
      ["ENTRADA: " + TypeText(ms), "DIA: " + date, "PRECIO: " + RenderPrice(p) + ".", "LINK: https://a.com/b/" + eventId]
    ensures "offerTypeDescription" !in Keys(ms) ==>
      Split(OfferMessage(JObject(ms), eventId, date).text, '\n')[0] == "ENTRADA: N/A"
  {
    var lines := MessageLines(TypeText(ms), date, RenderPrice(p), eventId);
    assert OfferMessage(JObject(ms), eventId, date) == Message(Join("\n", lines));
    LinesSplit(TypeText(ms), date, RenderPrice(p), eventId);
  }

  /** Joining the template lines with line breaks and splitting again gives them back. */
  lemma LinesSplit(typeText: string, date: string, priceText: string, eventId: string)
    requires Free(typeText, '\n') && Free(date, '\n') && Free(priceText, '\n') && Free(eventId, '\n')
    ensures Split(Join("\n", MessageLines(typeText, date, priceText, eventId)), '\n') ==
      ["ENTRADA: " + typeText, "DIA: " + date, "PRECIO: " + priceText + ".", "LINK: https://a.com/b/" + eventId]
  {
    var lines := MessageLines(typeText, date, priceText, eventId);
    LinesFree(typeText, date, priceText, eventId);
    SplitJoin(lines, '\n');
    assert lines[3] == "LINK: https://a.com/b/" + eventId;
  }

  lemma LinesFree(typeText: string, date: string, priceText: string, eventId: string)
    requires Free(typeText, '\n') && Free(date, '\n') && Free(priceText, '\n') && Free(eventId, '\n')
    ensures forall i :: 0 <= i < 4 ==> Free(MessageLines(typeText, date, priceText, eventId)[i], '\n')
  {
    FreeConcat("ENTRADA: ", typeText, '\n');
    FreeConcat("DIA: ", date, '\n');
    FreeConcat("PRECIO: ", priceText, '\n');
    FreeConcat("PRECIO: " + priceText, ".", '\n');
    FreeConcat("LINK: " + LINK_PREFIX, eventId, '\n');
  }

  lemma FreeConcat(a: string, b: string, c: char)
    requires Free(a, c) && Free(b, c)
    ensures Free(a + b, c)
  {
  }

  /** "N/A" exactly when there is no usable `price.total`: the entry is missing
      or falsy, or it has no "total" (key of a dict, element of a list, substring
      of a str). Never "N/A" for an offer whose total is present. */
  lemma PriceNotAvailable(info: Option<Json>)
    requires ClassifyPrice(info).Some?
    ensures RenderPrice(ClassifyPrice(info).value) == "N/A" <==>
      info.None? || !Truthy(info.value) ||
      (info.value.JObject? && "total" !in Keys(info.value.members)) ||
      (info.value.JString? && !Contains(info.value.s, "total")) ||
      (info.value.JArray? && JString("total") !in info.value.items)
  {
    var p := ClassifyPrice(info).value;
    if p.Amount? {
      assert FormatCents(p.cents)[|FormatCents(p.cents)| - 1] != 'A';
    } else if p.InvalidFormat? {
      assert ("Invalid format (" + Str(p.raw) + ")")[0] == 'I';
    }
    if info.Some? && info.value.JArray? {
      var xs := info.value.items;
      if JString("total") in xs {
        var i :| 0 <= i < |xs| && xs[i] == JString("total");
        EqualsString(xs[i], "total");
      } else {
        forall i | 0 <= i < |xs| ensures !PyEq(xs[i], JString("total")) {
          EqualsString(xs[i], "total");
        }
      }
    }
  }

  /** A present, non-numeric `total` is reported verbatim, as `str` shows it. */
  lemma PriceInvalidFormat(ms: seq<Member>, raw: Json)
    requires ms != [] && Get(ms, "total") == Some(raw)
    requires !raw.JInt? && !raw.JBool?
    ensures ClassifyPrice(Some(JObject(ms))) == Some(InvalidFormat(raw))
    ensures RenderPrice(InvalidFormat(raw)) == "Invalid format (" + (if raw.JString? then raw.s else Repr(raw)) + ")"
  {
  }

  /** An integer `total` of t cents is shown as t / 100 with two decimals. */
  lemma PriceAmount(ms: seq<Member>, t: int)
    requires Get(ms, "total") == Some(JInt(t))
    ensures ms != []
    ensures ClassifyPrice(Some(JObject(ms))) == Some(Amount(t))
    ensures ParseCents(RenderPrice(Amount(t))) == Some(t)
  {
    ParseFormatCents(t);
  }

  /** A bool `total` counts as the int 1 or 0: `true` is shown as 0.01 and
      `false` as 0.00. */
  lemma PriceBoolTotal(ms: seq<Member>, b: bool)
    requires Get(ms, "total") == Some(JBool(b))
    ensures ClassifyPrice(Some(JObject(ms))) == Some(Amount(if b then 1 else 0))
    ensures RenderPrice(Amount(if b then 1 else 0)) == (if b then "0.01" else "0.00")
  {
    assert NatToString(0) == "0";
  }

  /** The price block raises exactly for a non-zero int or `true` (the `in` test
      on a number), and reports "Error processing" exactly for a str or list
      holding "total" (the subscript `price_info['total']` on them). */
  lemma PriceRaisesOrFails(info: Option<Json>)
    ensures ClassifyPrice(info).None? <==>
      info.Some? && ((info.value.JInt? && info.value.n != 0) || info.value == JBool(true))
    ensures ClassifyPrice(info) == Some(ErrorProcessing) <==>
      info.Some? &&
      ((info.value.JString? && Contains(info.value.s, "total")) ||
       (info.value.JArray? && JString("total") in info.value.items))
  {
    if info.Some? && info.value.JArray? {
      var xs := info.value.items;
      forall i | 0 <= i < |xs| ensures PyEq(xs[i], JString("total")) <==> xs[i] == JString("total") {
        EqualsString(xs[i], "total");
      }
    }
  }

  /** Formatting an offer raises exactly when the offer is not a dict or its
      price entry makes the price block raise. */
  lemma OfferRaises(offer: Json, eventId: string, date: string)
    ensures OfferMessage(offer, eventId, date).Raised? <==>
      !offer.JObject? ||
      (Get(offer.members, "price").Some? &&
       ((Get(offer.members, "price").value.JInt? && Get(offer.members, "price").value.n != 0) ||
        Get(offer.members, "price").value == JBool(true)))
  {
    if offer.JObject? {
      PriceRaisesOrFails(Get(offer.members, "price"));
    }
  }
}
