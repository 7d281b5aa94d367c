# Flight dialogue system: a verified model of its core

The flight dialogue system is a slot-filling conversational agent for flight
search. A user says where and when they want to fly. The language-understanding
side turns each utterance into attribute values (airport codes, dates, times,
numbers, a cabin class) and a dialogue act. The dialogue manager stores those
values per attribute. It asks for the minimal attributes that are still missing,
then for the most decisive remaining one, and after every answer it rebuilds
the candidate flights from the search back end. The flight-search side reshapes
a QPX Express response into flight records and describes each flight in one
sentence.

This project models that core in Dafny and proves properties of the model:

- `Dialogue` (manager.dfy): the `Manager` class of
  `server/dialogue/manager.py`. It keeps the field table, the user state, the
  candidate records and the interaction log. It also holds `next_question`,
  `inform`, `feedback` and `update`.
- `QueryExpansion` (expansion.dfy): the cursor enumeration inside
  `Manager.update`, with the `MAX_DATA` cap, given as a specification that
  `Update` is proved against.
- `DialogueScenario` (scenario.dfy): the manager configured as in
  `server/system.py`, driven through the exchange of `server/test.py`.
- `Qpx` (qpx.dfy): `extract_flights` and `stringify` of `server/qpx/qpx.py`.
  Leg objects are the only shared, mutable objects: extraction deletes two
  keys from them in place.
- `Nlu` (nlu.dfy): the pure parts of `nlu/nlu.py`. These are the token
  classifiers, the date and time parsers, number detection and cabin-class
  detection.
- `ActClassifier` (act_classifier.dfy): `simple_classify` of
  `nlu/act_classifier.py`.
- `Calendar` (calendar.dfy) has the dates of Python's `datetime.date`.
  `Text` (text.dfy) has the string operations used: `lower`, `upper`, `in`,
  `join`, `replace`, `%i` and slicing. `Wrappers` (wrappers.dfy) has `Option`
  and `Result`.

Some of what the code does is easy to misread. The model follows the code:

- **Expansion order.** `update` does not enumerate the full cross product of
  the candidates like an odometer. Each round moves the first cursor that is
  still above 0 down by one and never resets a cursor. So the queries follow a
  single chain of `1 + Σ(len - 1)` cursor positions, from every attribute's last
  candidate down to every attribute's first (`QueryExpansion.ChainShape`,
  `QueryExpansion.ChainIsNotCrossProduct`).
- **Question candidates.** `next_question` considers every configured field
  except the first one, the minimal fields included, not only the non-minimal
  ones.
- **No question left.** When no entropy is accepted, `next_question` returns
  `(None, None)` and logs no turn.
- **Errors.** In the code, an unknown field name raises a `KeyError` after the
  turn has been logged. The model returns that case as an explicit result:
  `UnknownField`, `UnknownAttribute`, or `false` from `Feedback`. The logged turn
  is kept, as in the code.

## Model

| member | source | states |
|---|---|---|
| Dialogue.FieldConfig | server/dialogue/manager.py:19-21 | `available_fields` holds each configured name once. Its key order lists the same names, with the first configured name first. Every configured field is reachable under its own name. |
| Dialogue.FieldTableLastWins | server/dialogue/manager.py:20-21 | A name configured twice keeps the last field given for it. |
| Dialogue.FieldOrderOfDistinct | server/dialogue/manager.py:19-21 | When the names are distinct, the dictionary order is the configured order. |
| Dialogue.Manager.constructor | server/dialogue/manager.py:18-29 | Builds the field table and its key order from the configured fields. The user state, the records and the log start empty. The class invariant holds. |
| Dialogue.FirstMissing | server/dialogue/manager.py:41-42 | Returns the first minimal name with no user-state entry, all earlier ones being present. Returns none exactly when every name is present. |
| Dialogue.Manager.Sufficient | server/dialogue/manager.py:32-36 | True exactly when every minimal field has an entry in the user state. |
| Dialogue.Manager.Candidates | server/dialogue/manager.py:49-52 | Every configured field except the first one, in dictionary order. |
| Dialogue.ChooseField | server/dialogue/manager.py:50-58 | Returns none exactly when no candidate's entropy lies strictly between 1e-10 and `sys.maxsize`. Otherwise returns the candidate with the smallest accepted entropy, the earliest one on ties. |
| Dialogue.BestAmongUnique | server/dialogue/manager.py:52-56 | The selection rule picks at most one field. |
| Dialogue.Manager.NextQuestion | server/dialogue/manager.py:39-64 | While a minimal field is missing, logs and asks for the first missing one, with no expected values. The result is `UnknownField` if that name is not configured. Once all are present, asks for the best candidate with the categories of the current records, and logs it. When no candidate qualifies, returns `NoQuestion` and logs nothing. Never asks for the first configured field. The user state and the records do not change. |
| Dialogue.Manager.Inform | server/dialogue/manager.py:69-81 | Always logs the answer first. An empty answer is rejected with "no attribute values provided" and nothing else changes. One value is stored as given. Several values are pruned by the field, or the result is `UnknownAttribute`. After storing, the records are rebuilt by `Update` and their count is returned; the count is `None` until the minimal fields are complete. |
| Dialogue.Manager.Feedback | server/dialogue/manager.py:84-89 | Logs the turn. Multiplies that field's score by 1.1 or 0.9. Leaves every other field, the user state and the records unchanged. Reports whether the attribute is configured. |
| Dialogue.Manager.Update | server/dialogue/manager.py:93-118 | Returns `None` and changes nothing until the minimal fields are complete. Then the records are exactly those of the query expansion over the user state, and their count is returned. |
| QueryExpansion.FirstPositive | server/dialogue/manager.py:110-114 | Returns the first cursor above 0, all before it being at most 0. Returns none when no cursor is above 0. |
| QueryExpansion.Step | server/dialogue/manager.py:110-113 | Only the first positive cursor moves, down by one. The cursor sum drops by one and the cursors stay below where they started. |
| QueryExpansion.Advance | server/dialogue/manager.py:109-116 | The cursor-moving loop reports an update exactly when some cursor is above 0. When it does, the new cursors are `Step`'s. |
| QueryExpansion.LastIndices | server/dialogue/manager.py:101 | Every attribute's cursor starts at its last candidate. All cursors are valid exactly when every attribute has a candidate. |
| QueryExpansion.BuildQuery | server/dialogue/manager.py:103-105 | The query-building loop produces the query at the current cursors. |
| QueryExpansion.QueryAtKeys | server/dialogue/manager.py:103-105 | The query has exactly the informed attributes as keys. |
| QueryExpansion.QueryAtValues | server/dialogue/manager.py:103-105 | With distinct attribute names, each attribute is queried with the value under its cursor. |
| QueryExpansion.Chain | server/dialogue/manager.py:102-116 | The uncapped walk has `1 + Σ` positions and starts at the initial cursors. |
| QueryExpansion.ChainShape | server/dialogue/manager.py:102-116 | The uncapped walk moves by `Step` and ends with every cursor at 0. Each of its positions stays below the initial cursors. |
| QueryExpansion.ChainIsNotCrossProduct | server/dialogue/manager.py:110-114 | With two candidates for each of two attributes, the walk is [1,1], [0,1], [0,0]. The combination [1,0] is never queried. |
| QueryExpansion.CollectFollowsChain | server/dialogue/manager.py:102-116 | The rounds query a non-empty prefix of the chain. They stop before its end only when the records number more than `MAX_DATA`. |
| QueryExpansion.CollectRecords | server/dialogue/manager.py:106 | The records are the database's answers to the queries made, concatenated in order with no duplicate removed. |
| QueryExpansion.CollectStopsAtCap | server/dialogue/manager.py:106-108 | Before the last query the records numbered at most `MAX_DATA`. |
| QueryExpansion.ExpandWithEmptyCandidates | server/dialogue/manager.py:101-102 | An attribute without candidates means no query is made and no records are returned. |
| QueryExpansion.ExpandSingle | server/dialogue/manager.py:101-116 | With one candidate per attribute exactly one query is made. |
| QueryExpansion.ExpandFollowsChain | server/dialogue/manager.py:97-116 | `update` queries a prefix of the chain from the last candidates. It stops early only past `MAX_DATA`. |
| QueryExpansion.ExpandRecords | server/dialogue/manager.py:97-108 | `update`'s records are the concatenated answers to its queries. Before the last query they were at most `MAX_DATA`. |
| QueryExpansion.ExpandUncapped | server/dialogue/manager.py:102-116 | Below the cap, `update` makes exactly `1 + Σ(len - 1)` queries, the last at every attribute's first candidate. |
| DialogueScenario.Configure | server/system.py:5-20 | Four fields: destination, origin, departure date, non-stop. The first three are minimal. The order is the configured one and the state is empty. |
| DialogueScenario.Exchange | server/test.py:57-64 | The destination, the origin and the date are asked for in order, the date twice. The empty date is rejected. The answers report no count until the last one, which reports the size of the database's answer to the single trip query. The log is the eight question and answer turns. |
| DialogueScenario.TestDialogue | server/test.py:56-65 | The whole test. It adds that the final question is either none or about a configured field other than the first one, and is logged as a ninth turn only when asked. |
| DialogueScenario.TripExpansion | server/dialogue/manager.py:99-106 | With one answer per minimal field, the expansion's records are the database's answer to the query {destination, origin, date}. |
| Qpx.StripLegs | server/qpx/qpx.py:68-72 | Every leg loses its "kind" and "id" keys and is kept, as the same object, in order. |
| Qpx.ExtractSegment | server/qpx/qpx.py:63-73 | The segment record copies the five keys, sets the connection time (0 when absent) and keeps the stripped legs. |
| Qpx.ExtractSlice | server/qpx/qpx.py:58-75 | The slice record has the duration and the segment records in order. All legs of the slice are stripped. |
| Qpx.ExtractOption | server/qpx/qpx.py:53-77 | The flight record has the price, the slice records in order, and the sum of the slice durations as the total. |
| Qpx.ExtractFlights | server/qpx/qpx.py:43-79 | No response gives `None`, and no "tripOption" key gives no flights. Otherwise there is one flight per option that has slices. Every leg of the response is stripped in place. |
| Qpx.ExtractOptions | server/qpx/qpx.py:50-77 | The loop over the options skips those without slices and yields `Reshape` of the options. |
| Qpx.WithSlices | server/qpx/qpx.py:51-52 | The kept options are, one for one and in order, the options at the positions `SliceIndices` lists. |
| Qpx.SliceIndices | server/qpx/qpx.py:51-52 | The positions of the options with slices: each such position once, in increasing order, and nothing else. They are all the positions exactly when every option has a slice. |
| Qpx.ReshapeFollowsOptions | server/qpx/qpx.py:50-77 | The flights correspond one for one and in order to the options that have slices. |
| Qpx.DurationsKept | server/qpx/qpx.py:56-60 | The slice records keep the response's slice durations, so they add up to the same total. |
| Qpx.FlightDurationsAdd | server/qpx/qpx.py:51-60 | Every extracted flight has a slice, and its total duration is the sum of its slices' durations. |
| Qpx.FirstLeg | server/qpx/qpx.py:83-84 | `get_origin` reads a leg exactly when the slice's first segment has a leg (an IndexError otherwise). That leg is the slice's first leg. |
| Qpx.LastLeg | server/qpx/qpx.py:86-87 | `get_destination` reads a leg exactly when the slice's last segment has a leg (an IndexError otherwise). That leg is the slice's last leg. |
| Qpx.Route | server/qpx/qpx.py:116-123 | A route exists exactly when the first slice's first leg exists and the final leg the destination is read from exists (an IndexError otherwise). The origin is where the first slice starts. Other than with two slices, the destination is where the first slice ends. With two slices it is where the second slice ends, unless that is the origin; then it is where the first slice ends. |
| Qpx.Header | server/qpx/qpx.py:121-124 | The text starts with "Return Trip from " exactly when the flight has two slices. Otherwise it starts with the slice count in decimal followed by "-Way Trip from ". It ends with " from <origin> to <destination>", and nothing lies between the opening and that ending. |
| Qpx.IntermediateStops | server/qpx/qpx.py:89-98 | The nested loops collect every leg origin other than the trip's origin and every leg destination other than the trip's destination. |
| Qpx.StopsWithoutEndpoints | server/qpx/qpx.py:89-98 | The corrected stops are the collected ones without the trip's origin and destination. |
| Qpx.StopsAgreeOneWay | server/qpx/qpx.py:94-97 | When no leg leaves from the destination and none arrives at the origin, the collected stops are the corrected ones. |
| Qpx.ReturnTripStops | server/qpx/qpx.py:94-97 | On LAX-AMS, AMS-LAX the collected stops are {AMS, LAX}, where the corrected stops are empty. |
| Qpx.ReturnTripRoute | server/qpx/qpx.py:116-121 | That return trip is described as going from LAX to AMS. |
| Qpx.ReturnTripDescriptions | server/qpx/qpx.py:116-128 | As written, that non-stop return trip is described as going "over" stops; the corrected description names none. |
| Qpx.Carriers | server/qpx/qpx.py:100-105 | The nested loops collect the carrier of every segment. |
| Qpx.CarrierSetMembers | server/qpx/qpx.py:100-105 | A carrier is collected exactly when some segment flies it. |
| Qpx.StringifyList | server/qpx/qpx.py:107-114 | A phrase is produced exactly for a non-empty list. The empty list raises an IndexError. |
| Qpx.StringifyListIsPhrase | server/qpx/qpx.py:107-114 | The phrase names every item in order, separated by ", " with " and " before the last one ("a", "a and b", "a, b and c"). |
| Qpx.ArrivalText | server/qpx/qpx.py:132-134 | The arrival is rewritten exactly when its first ten characters equal the departure's. It then starts with "the same day at ". |
| Qpx.PriceInDollars | server/qpx/qpx.py:137 | "USD" followed by an amount without a 'U' reads "$ " followed by that amount. |
| Qpx.Stringify | server/qpx/qpx.py:82-139 | A description exists exactly when the route and the last slice's final leg exist. It is the header, then the stops phrase of what `intermediate_stops` collects, then the particulars. So it opens with the header, starts with "Return Trip from " exactly when the flight has two slices, and has " over " after the header exactly when stops were collected. |
| Qpx.StringifyCorrected | server/qpx/qpx.py:116-139 | The same description with the corrected stops: " over " follows the header exactly when some leg passes through a place other than the trip's origin and destination. |
| Qpx.Sentence | server/qpx/qpx.py:121-137 | Exists exactly when the last slice's final leg exists. It is the header, the stops phrase and the particulars, in that order. It opens with the header and starts with "Return Trip from " exactly when the flight has two slices. The header is followed by " over " exactly when the given stops are non-empty. |
| Qpx.OverPhrase | server/qpx/qpx.py:126-128 | Empty exactly when there are no stops. Otherwise it is " over " followed by the stops named in order, separated by ", " with " and " before the last one. |
| Qpx.Particulars | server/qpx/qpx.py:130-137 | " departing on " and the departure time with "T" written as a space, then " and arriving on " and the arrival text of `ArrivalText`, then " with " and every carrier named in a phrase, then " for " and the price with "USD" written "$ ". |
| Qpx.StringifyAgreesOneWay | server/qpx/qpx.py:94-97 | When no leg leaves from the destination or arrives at the origin, the description as written is the corrected one. |
| Text.ReplaceChar | server/qpx/qpx.py:130-131 | Replacing "T" by " " keeps the length and changes exactly the "T" characters. |
| Text.ReplaceAbsent | server/qpx/qpx.py:137 | Text in which the pattern's first character never occurs is left unchanged. |
| Text.NatToString | server/qpx/qpx.py:124 | `%i` of a count is a non-empty string of decimal digits that spells the count, with no leading zero unless the count is 0. |
| Nlu.IsIata | nlu/nlu.py:70-71 | True exactly when the word starts with three upper-case letters followed by at most one non-word character, with `$` also allowing a final newline. |
| Nlu.TailMatch | nlu/nlu.py:71 | `\W?$` after position i is the same as the rest being empty, a newline, a non-word character, or a non-word character and a newline. |
| Nlu.IsNumeral | nlu/nlu.py:74-75 | True exactly when some non-empty run of leading digits is followed by an allowed tail. |
| Nlu.SeemsLikeAirport | nlu/nlu.py:78-83 | A name is airport-like only if it has at least seven characters, the length of the shortest airport word. Every name containing "airport", in any case, is airport-like. |
| Nlu.SeemsLikeAirportInContext | nlu/nlu.py:78-83 | A name that contains an airport word still does inside a longer text. |
| Nlu.SeemsLikeAirportIgnoresCase | nlu/nlu.py:78-83 | The test is case-insensitive. |
| Nlu.ParseClock | nlu/nlu.py:203 | An accepted `%H:%M` reading has an hour below 24 and a minute below 60. |
| Nlu.ParseClockRoundTrip | nlu/nlu.py:203 | Every valid hour and minute, written with two digits each, is read back exactly. |
| Nlu.ParseTime | nlu/nlu.py:188-209 | An empty string gives no time. MO gives 00:00-12:00, AF gives 12:00-18:00, and EV and NI give 18:00-23:59. A parsable clock reading gives a two-hour window centred on it. Anything else gives `(None, None)`. |
| Nlu.AroundWindow | nlu/nlu.py:202-206 | The window for hh:mm runs from an hour before to an hour after it. |
| Nlu.ParseIsoDate | nlu/nlu.py:176-177 | An accepted `%Y-%m-%d` date is a valid calendar date with a year of at most 9999. |
| Nlu.ParseIsoDateRoundTrip | nlu/nlu.py:176 | Every valid date, written as YYYY-MM-DD, is read back exactly. |
| Nlu.ParseDate | nlu/nlu.py:172-185 | An empty or unparsable date gives none. |
| Nlu.ParseDateShift | nlu/nlu.py:180-183 | A date before today comes back exactly seven days later. Any other date comes back unchanged. The result is a valid date. |
| Calendar.AddDaysOrdinal | nlu/nlu.py:182 | Adding n days moves the ordinal by exactly n and keeps the date valid. |
| Calendar.BeforeIsOrdinalOrder | nlu/nlu.py:181 | Date comparison is ordinal comparison. |
| Nlu.DetectNumbers | nlu/nlu.py:255-265 | Fails exactly when some candidate lies in two exclusion entries, the second `remove` raising a KeyError. Otherwise it returns the candidates outside every entry, or no slot when there are none. |
| Nlu.KeptNumbersOutsideSpans | nlu/nlu.py:257-265 | Every kept number is a candidate that lies outside every exclusion entry. The slot is present exactly when some number is kept. |
| Nlu.DetectNumbersComparesValuesWithOffsets | nlu/nlu.py:258-261 | On "2 passengers on December 5", the day 5 is reported as a number because values are compared with character offsets. |
| Nlu.OffsetsAsValues | nlu/nlu.py:255-265 | When every number's text starts at the offset equal to its value, the corrected detector keeps exactly what the code keeps. So the correction changes only what is compared with the spans. |
| Nlu.NumbersInsideTaggedTextDropped | nlu/nlu.py:255-265 | With offsets compared to the spans, a value all of whose occurrences start inside tagged text is never reported, whatever its value. |
| Nlu.LastMatch | nlu/nlu.py:282-284 | The value is that of a table entry whose keyword occurs in the text. None means no keyword occurs. |
| Nlu.DetectCabinClass | nlu/nlu.py:273-285 | "premium" or "deluxe" returns at once. Otherwise every keyword found overwrites the entry, so the last one in table order wins. |
| Nlu.CabinClassPriority | nlu/nlu.py:279-284 | The priority order is premium/deluxe, then first, then business, then economy or coach, else nothing. |
| Nlu.CabinClassPremiumMisspelt | nlu/nlu.py:280 | "premium economy" yields "PREMIUM COACH", which is none of the table's cabin values. |
| Nlu.CabinClassCorrectedInTable | nlu/nlu.py:51-58 | With the table's own value in the premium branch, every detected class is one of the four cabin values. |
| ActClassifier.SimpleClassify | nlu/act_classifier.py:35-43 | The result is always one of statement, question, yes or no. |
| ActClassifier.YesDominates | nlu/act_classifier.py:36-37 | An utterance classified "yes" stays "yes" whatever text surrounds it. |
| ActClassifier.NoBeatsQuestionMark | nlu/act_classifier.py:38-41 | Without "yes" but with "no", the act is "no", and it stays "no" when a question mark is added. |
| ActClassifier.NeitherYesNorNo | nlu/act_classifier.py:40-43 | Without "yes" or "no", the act is a question exactly when a '?' occurs, and a statement exactly when none does. |
| ActClassifier.NoMatchesInsideWords | nlu/act_classifier.py:38-39 | "Do you know?" is classified "no", because "no" is matched inside "know". |
| ActClassifier.ClassifyIgnoresCase | nlu/act_classifier.py:36-39 | Lower-casing the utterance does not change its act. |

## Left out

- The field classes (`Field`, `NumField`, bucketing, entropy, category counts, pruning) and the `Database`/`QPXDatabase` back end are not part of this model. A field contributes its name, its score and three opaque functions. The database is an opaque function from a query to records.
- `get_flights` (reading the API key, the on-disk cache, the HTTP request) and `main` are I/O and are left out. A response is a parameter of `ExtractFlights`.
- The spaCy- and tagger-based functions of `nlu/nlu.py` (entity and date-time detection, direction and qualifier detection, `indicates`) and the Weka-backed `classify` are left out. They call a parser or a subprocess whose behaviour is not in the source.
- `Dialogue.Manager.Inform`: the `print` of the pruning counts is left out.
- Confidence values and field scores are mathematical reals. Python's floats, including the rounding of `score * 1.1`, are not modelled.
- `lower()`, `upper()` and `\d` are modelled on ASCII only. `\w` counts the ASCII letters, digits and underscore and every non-ASCII character as word characters. Python's `\W` also matches non-ASCII characters such as '€' or a no-break space, so `is_iata("ABC€")` is true in the code and false in the model.
- `Nlu.DetectNumbers` takes the integers `re.findall('([\d,]+)')` reads from the utterance as a set. The reading itself is left out. `[\d,]+` also matches a lone ",", so `int(num)` raises a ValueError on any utterance that contains a comma, such as "From Boston, please", as well as on "1,000".
- `Nlu.ParseDate` and `Nlu.ParseDateShift` do not model the `OverflowError` of adding seven days to a date late in year 9999: the model returns a date in year 10000.
- `Nlu.ParseDate`: today's date, read from the clock in the source, is a parameter.
- `Qpx.ExtractFlights` requires every leg to have its "kind" and "id" keys and no leg object to appear twice, as in a parsed JSON document. The `KeyError` of a missing key and the aliasing of a repeated leg are not modelled. Legs are objects with typed fields; their other keys are kept as a map.
- `Qpx.Stringify`: `list(set)` takes the set's iteration order, which Python does not specify. It is the parameter `order`, assumed to list each member once. The text of the stops and carriers therefore depends on that parameter.
- `Qpx.Stringify` and `Qpx.StringifyCorrected` read the stops from `Qpx.StopsAsWritten` and `Qpx.Stops`, the functions `Qpx.IntermediateStops` is proved against, since a function cannot call the method.
- `Qpx.IntermediateStops` and `Qpx.Carriers` are specified against the legs and segments flattened slice by slice, in the same order as the loops visit them.
- `DialogueScenario.TestDialogue`: the field names, the user's three values ("AMS", "LAX", "2016-12-09") and the database are parameters, with only the names required to be distinct. The `Speaker` output of the test is left out.
- The interaction log records the turn kinds as datatype constructors rather than the strings "question", "answer" and "feedback".

## Findings

| source | as written | input that shows it | evidently intended | confidence | as-written member | corrected member |
|---|---|---|---|---|---|---|
| server/qpx/qpx.py:94-97 | A leg's origin is listed as a stop unless it is the trip's origin, and a leg's destination unless it is the trip's destination, so on a return trip both endpoints are listed. | The return trip LAX-AMS, AMS-LAX, described from LAX to AMS, gets the stops {AMS, LAX}: "Return Trip from LAX to AMS over AMS and LAX …". | Stops are the places other than the trip's origin and destination; a non-stop return trip has none. | medium; not executed | Qpx.ReturnTripDescriptions | Qpx.StringifyCorrected |
| nlu/nlu.py:279-281 | "premium" or "deluxe" stores the cabin class "PREMIUM COACH", with a space. | "premium economy" yields "PREMIUM COACH", which matches none of the table's values COACH, PREMIUM_COACH, BUSINESS and FIRST. | The table's value "PREMIUM_COACH". | high; not executed | Nlu.CabinClassPremiumMisspelt | Nlu.CabinClassCorrectedInTable |
| nlu/nlu.py:258-261 | Each number's value is compared with the start and end offsets of the date and time spans. | "2 passengers on December 5" with the date span (16, 26): 5 lies outside that range as a value, so the day of the date is reported as a number. | A number is dropped when its text lies inside a tagged span. | medium; not executed | Nlu.DetectNumbersComparesValuesWithOffsets | Nlu.NumbersInsideTaggedTextDropped |
