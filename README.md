# fan2fanBot: the offer check, modelled in Dafny

fan2fanBot polls the Ticketmaster resale endpoint for a list of events. For
every offer it finds, it sends a Telegram notification. This project models
what `check_api_for_event` in `main.py` does once the HTTP response is in hand.
The outcome depends only on the decoded JSON body, the event id and the
event's date label:

- **no data**: the body equals `EMPTY_RESPONSE`;
- **warning**: some other dict with no non-empty `offers` list;
- **messages**: one notification per offer, in array order, with a one-second
  pause between consecutive ones;
- **unexpected error**: an exception ends the loop part-way. The messages
  already sent stay sent.

The project also models the start-up check that `EVENT_IDS` and `EVENT_DATES`
have the same length, and one pass of the polling loop, which checks event i
with date i.

Modules, leaves first:

- `Text` (text.dfy): decimal digits, `str.join`, `str.split` and substring
  search, with their round trips.
- `JsonValue` (json_value.dfy): the decoded body: None, bool, int, str, list,
  and dict as an ordered member list. It defines `dict.get` (the last member
  with a key wins, as with `json.loads`), Python truthiness, and Python `==`,
  under which `True == 1` and dicts compare in any order.
- `PyRepr` (py_repr.dfy): Python `str`/`repr` of such values, which f-strings
  insert into the message. Quoted strings can be read back.
- `Offers` (offers.dfy): the per-offer formatter. It covers the offer type, the
  price block (`"N/A"`, cents to two decimals, `"Invalid format (...)"`,
  `"Error processing"`) and the four-line template.
- `EventCheck` (event_check.dfy): the check itself. The method
  `CheckApiForEvent` is proved equal to the function `CheckSpec`. The lemmas
  state the four outcomes against an independent interleaving of messages and
  pauses.
- `Startup` (startup.dfy): the length check and one polling pass, recorded as
  a trace. The trace holds a random-delay marker, then the `(id, date)` being
  checked, then that check's effects.

Effects are recorded as a sequence of events, in order: `Sent(text)` for a
Telegram message, `Pause` for the one-second sleep, `Delay` for the random
pre-request sleep, `Check(id, date)` for the start of one event's check.

Two behaviours of `main.py` shape the model:

- An offer without a usable price is still sent, with `"N/A"`,
  `"Invalid format (...)"` or `"Error processing"` as the price.
- An offer that is not a dict, or whose `price` is a non-zero number or
  `true`, raises outside the inner `try`. That abandons every later offer of
  the event.

Python semantics modelled explicitly:

- `bool` is an `int`, so a `total` of `true` is shown as `0.01` and `false`
  as `0.00`.
- `'total' in price_info` tests membership in a list and substring in a str.
  When it is true for a list or str, the subscript that follows raises a
  `TypeError`, which the inner handler turns into `"Error processing"`.
- A body that is not a dict fails at `data.get` and ends in the outer handler.
- `offerTypeDescription` falls back to `"N/A"` only when the key is missing.
  A `null` type is shown as `None`.

## Model

| member | source | states |
|---|---|---|
| `JsonValue.Get` | main.py:95 | `d.get(k)` finds a value exactly when `k` is one of the dict's keys, and the value found is that of the last member with key `k`, as `json.loads` keeps it |
| `JsonValue.EqualsEmptyResponse` | main.py:21 | a decoded value equals `{"groups": [], "offers": []}` exactly when it is a dict whose keys are those two, both mapped to an empty list |
| `EventCheck.CheckNoData` | main.py:92 | a body equal to the empty response ends the check with no data and nothing sent |
| `EventCheck.CheckWarning` | main.py:95-128 | for a dict body other than the empty response, the check warns exactly when `offers` is missing, not a list, or empty; a warning sends nothing |
| `EventCheck.CheckApiForEvent` | main.py:59-134 | the whole check yields exactly the ending and effects of `CheckSpec`: the network, decode, no-data, not-a-dict and warning paths, and otherwise the run of the offers loop |
| `EventCheck.SendOffers` | main.py:96-125 | the loop over the offers (format offer i, send it, sleep when more than one offer and i is not the last, stop at the first offer that raises) yields exactly the run `Process` of the offers' formats |
| `EventCheck.SentPrefixStops` | main.py:97-121 | the texts sent before an abort are the messages of offers 0..k-1 in array order, and offer k (if any) is the one that raised |
| `EventCheck.ProcessShape` | main.py:97-125 | the offers loop produces Sent/Pause alternating with no pause after the last offer; when offer k raises, the pause after offer k-1 has happened and the result is the unexpected-error ending |
| `EventCheck.InterleavedCounts` | main.py:124-125 | n sent messages come with exactly n-1 pauses, and the sent texts are the messages in order |
| `EventCheck.ProcessAllSent` | main.py:97-125 | when every formatting succeeds, the loop completes, each message is sent once in array order, and there is one pause fewer than messages |
| `EventCheck.ProcessAbortsAt` | main.py:97-134 | when formatting k is the first to raise, the loop ends unexpectedly after exactly messages 0..k-1 and k pauses |
| `EventCheck.CheckAllSent` | main.py:97-125 | when every offer formats, one message per offer is sent, in array order, with n-1 pauses, and the check completes |
| `EventCheck.CheckAbortsAt` | main.py:97-134 | when offer k is the first to raise, exactly the messages of offers 0..k-1 stand, with k pauses, and the rest are abandoned through the outer handler |
| `Offers.OfferRaises` | main.py:97-102 | formatting an offer raises exactly when the offer is not a dict or its `price` is a non-zero int or `true` |
| `Offers.PriceRaisesOrFails` | main.py:102-112 | the price block raises exactly for a non-zero int or `true` `price`, and gives "Error processing" exactly for a str or list holding "total" |
| `Offers.PriceNotAvailable` | main.py:100-102 | the price is "N/A" exactly when `price` is missing or falsy, or has no "total" key, element or substring |
| `Offers.PriceInvalidFormat` | main.py:109-110 | a present `total` that is not a number gives `Invalid format (<str of total>)`: a str verbatim, anything else as its repr |
| `Offers.PriceAmount` | main.py:104-108 | an int `total` of t cents is classified as an amount, and its price string reads back as exactly t |
| `Offers.PriceBoolTotal` | main.py:105-108 | a bool `total` is an int to `isinstance`: `true` is classified as 1 cent and shown as "0.01", `false` as 0 cents and shown as "0.00" |
| `Offers.FormatCents` | main.py:107-108 | the price string ends in a point and two digits, starts with a minus sign exactly for a negative amount, and has no leading zero in its whole part (a whole part of 0 is the single digit "0") |
| `Offers.ParseFormatCents` | main.py:104-108 | the price string of t cents parses back to t, so it is t/100 with exactly two fractional digits |
| `Offers.FormatCentsExample` | main.py:107-108 | 15000 cents give "150.00" and -5 cents give "-0.05" |
| `Offers.MessageHasFourLines` | main.py:114-120 | a notification splits on line breaks into exactly `ENTRADA: <type>`, `DIA: <date>`, `PRECIO: <price>.`, `LINK: https://a.com/b/<event_id>` when the inserted texts hold no line break; the type is "N/A" when `offerTypeDescription` is missing |
| `PyRepr.UnquoteQuote` | main.py:110 | the repr of a str inside a list or dict `total` can be read back to the original text |
| `PyRepr.UnescapeEscape` | main.py:110 | the escapes `repr` writes inside the quotes decode back to the original characters |
| `Text.IntToStringRoundTrip` | main.py:115 | Python's `str` of an int (an `offerTypeDescription` that is a number) reads back as that int |
| `Text.SplitJoin` | main.py:120 | splitting `"\n".join(lines)` on line breaks gives back the lines when none holds a line break |
| `Text.JoinSplit` | main.py:120 | joining the pieces of a split with the separator gives back the original string |
| `Startup.ConfigurePairs` | main.py:150-154 | start-up is fatal exactly when the two lists differ in length, reporting both counts; otherwise the pairs split back into the configured id list and date list |
| `Startup.PollCycle` | main.py:168-176 | a pass does, for each index in order, a random pause, the check of that id with the date at the same index, and that check's effects |
| `Startup.StartAndPoll` | main.py:150-176 | a length mismatch exits before any request or message; otherwise one pass runs over the configured events |
| `Startup.CheckHasNoChecks` | main.py:59-134 | a check's own effects are messages and pauses only, never the start of another check |
| `Startup.PassChecks` | main.py:168-169 | after n visits the check markers are, in order, event i with date i for each i below n |
| `Startup.CyclePairsIndices` | main.py:168-169 | in a pass, the i-th event checked is `EVENT_IDS[i]` with `EVENT_DATES[i]`, each exactly once, in list order |

## Left out

- The HTTP request, its headers, the random User-Agent and the 30-second timeout: the outcome is the input `Fetch`. It is a decoded body, a network error (including a non-2xx status), or a body that is not JSON.
- JSON decoding itself, and numbers with a fraction or exponent: the value type has integers only, so float `total` values are not modelled.
- FormatCents: renders the exact decimal value of the integer cents. The source divides in binary floating point, so it loses cents once an amount is too large to be exact to the cent in a double. It raises `OverflowError` for totals beyond the double range.
- Offers.OfferRaises: does not count an integer `total` beyond the double range among the offers that raise. In the source, `total_price_raw / 100` raises `OverflowError` there. The inner handler catches only `ValueError`, `TypeError` and `KeyError`, so that error reaches the outer handler and abandons the later offers. The model formats such a total exactly instead.
- PyRepr.Repr: escapes only the characters below U+0100 that Python finds unprintable. Unprintable characters above U+00FF, which Python writes as `\u`/`\U` escapes, are left as they are.
- Text.IntToString: accepts integers of any length, whereas Python refuses to decode or print integers of more than 4300 digits.
- `send_telegram_message` and the `telegram.Bot` client: each send is a `Sent` event. The "not configured" early return cannot happen after the start-up checks. Delivery errors are only logged.
- The durations of `time.sleep` and `random.uniform`: each sleep is recorded only as a `Pause` or `Delay` marker.
- The `while True` loop, the 100-second interval sleep, `KeyboardInterrupt` and the 60-second error backoff: only one pass of the loop body is modelled.
- The checks of the environment variables, logging setup, and the warning about placeholder event ids: these are configuration and log output only.
- The texts of the log lines, including the `json.dumps` of the body in the warning: the model records which log branch was taken (the `Ending`), not its text.
- Offers.MessageHasFourLines: states the four-line split only when the inserted texts hold no line break. A type, date, id or price text with a line break gives more lines in the source too.
