# Restaurant finder core in Dafny

This project models the pure, sequential logic of a small restaurant-finder web
application. Three pieces of the application's logic are modelled:

- **The CSV import script** (`scripts/csv-to-json.js`) turns a restaurants CSV file
  into the JSON catalog. Its logic is modelled as:
  - the split of the file into lines and the dropping of blank lines;
  - the quote-aware comma splitter;
  - `parseOperatingHours`, which scans the hours text with the regular expression
    `/(\d{1,2}):?(\d{2})?\s*(AM|PM)/gi`, converts every match to 24-hour `HH:MM`
    form, and keeps the first and the last match;
  - `convertPriceRange`, the bucketing of `$low-high` into one to four dollar
    signs;
  - the record normaliser with its per-field fallbacks, and the loop that numbers
    the records.
- **The keyword geocoder** (`mockGeocode` in `utils/distance.ts`) lower-cases the
  address. It walks the keyword table in `Object.entries` order and returns the
  coordinates of the first key that occurs in the address. Under section 10.1.11.1
  of ECMA-262 (OrdinaryOwnPropertyKeys), that order is the eleven ZIP codes in
  ascending numeric order first, then the neighbourhood names as written. When no key
  occurs, it returns the city centre.
- **The restaurant card helpers** (`components/RestaurantCard.tsx`):
  - `formatTime`, 24-hour to 12-hour text;
  - `isOpenNow`, with the current minute of the day as a parameter;
  - the star counts of `renderStars`;
  - `getPriceColor`;
  - `getCuisineEmoji`.

The modules follow the program's structure:

| module | file | contents |
|---|---|---|
| `Wrappers` | `wrappers.dfy` | `Option` (undefined / NaN) and `Result` |
| `Text` | `text.dfy` | the JavaScript string operations the code uses: `split`, `trim`, `toString`, `padStart`, `toLowerCase` and `includes` |
| `RestaurantTypes` | `restaurant_types.dfy` | the `Restaurant` record (`types/restaurant.ts`) and `Coord` |
| `CsvFields` | `csv_fields.dfy` | the quote-aware field splitter |
| `Hours` | `hours.dfy` | the time pattern, as a backtracking matcher plus the global `exec` scan; the 12-to-24-hour conversion; `parseOperatingHours` |
| `HoursExamples` | `hours_examples.dfy` | worked inputs of the hours parser |
| `Price` | `price.dfy` | the `$low-high` pattern and `convertPriceRange` |
| `Catalog` | `catalog.dfy` | the line filter, the record normaliser and the catalog loop |
| `Geocode` | `geocode.dfy` | `mockGeocode` and its ordered keyword table |
| `RestaurantCard` | `restaurant_card.dfy` | the display helpers |

Where the code and its accompanying description disagree, the model follows the
code:

- Record ids are dense: `1` to `n` over the non-blank data lines. They are not the
  original line positions. Blank lines are removed before the loop numbers the
  records, so the `continue` for blank lines never runs.
- The hours output is not always a valid `HH:MM`. `"13PM"` becomes `"25:00"`, and
  `"0AM"` becomes `"00:00"`. `Hours.Clock24Valid` states exactly when the output is
  valid.

## Model

| member | source | states |
|---|---|---|
| Text.Split | scripts/csv-to-json.js:9 | `split` gives at least one piece and no piece holds the separator. Joining the pieces with the separator gives the input back. |
| Text.SplitCount | scripts/csv-to-json.js:9 | There is one piece more than there are separators in the text. |
| Text.SplitUnique | scripts/csv-to-json.js:9 | Splitting a join of separator-free pieces gives those pieces back, so `split` inverts `join`. |
| Text.SplitConcat | scripts/csv-to-json.js:9 | Splitting `a + sep + b` gives the pieces of `a` followed by the pieces of `b`. |
| Text.TrimIsInnerBlock | scripts/csv-to-json.js:93 | `trim` returns the contiguous block left after removing the leading and trailing white space. That block neither starts nor ends with white space. |
| Text.Trim | scripts/csv-to-json.js:93 | `trim` never makes the text longer, and its result neither starts nor ends with white space. |
| Text.TrimEmptyIffSpaces | scripts/csv-to-json.js:9 | `trim` gives "" exactly when the text is all white space. This is the line filter's truthiness test. |
| Text.TrimmedIffFixed | scripts/csv-to-json.js:99 | A trimmed result is fixed by `trim`, and `trim` leaves a text unchanged exactly when it is already trimmed. |
| Text.TrimIdempotent | scripts/csv-to-json.js:99 | Trimming twice is the same as trimming once. |
| Text.NatToString | scripts/csv-to-json.js:105 | `toString` of a natural number gives decimal digits. The length grows with the magnitude, and there is no leading zero except in "0". |
| Text.NatToStringValue | scripts/csv-to-json.js:105 | Reading the numeral back as a decimal gives the number. |
| Text.NatToStringInjective | scripts/csv-to-json.js:105 | Two numbers have the same numeral exactly when they are equal. |
| Text.PadStart2 | scripts/csv-to-json.js:32 | `padStart(2, '0')` keeps the text as the suffix and prefixes only zeros, up to length 2. |
| Text.PadStart2OfValue | scripts/csv-to-json.js:32 | Padding the numeral of a two-digit text's value restores the text. |
| Text.ToLower | utils/distance.ts:68 | `toLowerCase` keeps the length and moves each upper-case letter `A` to `Z` to its lower-case letter. No upper-case letter `A` to `Z` is left, and every other character is unchanged. |
| Text.ToLowerIdempotent | utils/distance.ts:68 | Lower-casing twice is the same as lower-casing once. |
| Text.ContainsAt | utils/distance.ts:100 | `includes` holds exactly when the key occurs at some position. |
| Text.ContainsBlock | utils/distance.ts:100 | A text that includes a key includes every block of it. |
| Catalog.NonBlank | scripts/csv-to-json.js:9 | The filter keeps no all-white-space line and never adds lines. |
| Catalog.NonBlankMembers | scripts/csv-to-json.js:9 | A line survives the filter exactly when it is in the input and does not trim to "". |
| Catalog.NonBlankConcat | scripts/csv-to-json.js:9 | The filter works piecewise over a concatenation, so it keeps the input order. |
| Catalog.Lines | scripts/csv-to-json.js:9 | The file's lines are at most the newline pieces of the text, and none of them is all white space. |
| Catalog.BlankLineFiltered | scripts/csv-to-json.js:9 | Inserting a blank line between two lines of the file leaves the filtered lines unchanged. |
| Catalog.OrElse | scripts/csv-to-json.js:106 | The string fallback `a or else b` gives one of its operands. It gives `a` whenever `a` is not "", and it is "" only when both are "". |
| Catalog.CuisineOf | scripts/csv-to-json.js:108 | The cuisine is the longest prefix of the field (or of "Indian") before any "/", so it holds no "/". |
| Catalog.CuisineDefault | scripts/csv-to-json.js:108 | An empty or missing cuisine field gives "Indian". |
| Catalog.RatingOf | scripts/csv-to-json.js:109 | The rating is never 0. It is the parsed number or the default 4.0. A non-zero number parsed from a non-empty field is kept as it is. |
| Catalog.DefaultPriceIsSecondTier | scripts/csv-to-json.js:110 | The fallback price text "$10-20" averages exactly 15 and buckets to "$$". |
| Catalog.Normalise | scripts/csv-to-json.js:101-118 | A record gets the following: <br>• the id `k + 1`; <br>• name, address, phone and hours text from fields 0 to 3, the cuisine from field 4 and the rating from field 8; <br>• a quote-free, trimmed name; <br>• a cuisine without "/"; <br>• a non-empty description; <br>• a non-zero rating; <br>• the price tier of field 7, or of "$10-20" when that field is empty; <br>• the place's coordinates; <br>• the first and last times parsed from its own hours text. |
| Catalog.RecordFallbacks | scripts/csv-to-json.js:106-117 | A line with at most 1, 2 or 3 fields gives an empty address, phone or hours text respectively. A non-empty cuisine field gives its text before the first "/", and an empty one gives "Indian". An empty price gives "$$". The description is field 10, else field 6, else the fixed sentence. |
| Catalog.FromLines | scripts/csv-to-json.js:10 | With no non-blank line the import fails, because `lines[0]` is undefined. Otherwise there is one record per line after the header. |
| Catalog.BuildCatalog | scripts/csv-to-json.js:80-121 | The catalog fails exactly when the file has no non-blank line. Otherwise it holds one record per non-blank line after the first. |
| Catalog.RecordsComeFromDataLines | scripts/csv-to-json.js:80-120 | Record k is the normalisation of the non-blank line k + 1, in input order, so the header is never a record. |
| Catalog.RecordFromLine | scripts/csv-to-json.js:80-120 | Over the filtered lines, record k is built from line k + 1 with position k among the data lines. |
| Catalog.IdsDenseAndDistinct | scripts/csv-to-json.js:105 | The ids are "1" to "n" in order, and all different. |
| Catalog.BlankLineIgnored | scripts/csv-to-json.js:82 | A blank line inserted between two lines of the file changes nothing in the catalog. Ids have no gaps, and the blank-line `continue` never matters. |
| Catalog.RowLoop | scripts/csv-to-json.js:80-121 | The loop's result is every data line normalised with its position. |
| Catalog.ImportRestaurants | scripts/csv-to-json.js:9-121 | Reading, filtering and looping compute the catalog. It fails exactly when the file has no non-blank line. Otherwise there is one record per non-blank line after the header, and record k is line k + 1 normalised at position k. |
| CsvFields.RawFieldsFrom | scripts/csv-to-json.js:89-98 | There is one field more than the commas outside quotes, and no field holds a quote. |
| CsvFields.RawFieldsFromJoin | scripts/csv-to-json.js:89-98 | Joining the fields with "," gives the collected text plus the rest without quotes. |
| CsvFields.RawFields | scripts/csv-to-json.js:85-99 | A line has one untrimmed field more than its commas outside quotes. No field holds a quote, and joining the fields with "," gives the line with every quote removed. |
| CsvFields.QuotedFieldKeepsCommas | scripts/csv-to-json.js:89-92 | A comma between quotes stays in its field: `x,"v",w` has exactly the fields `x`, `v` and `w`, as `a,"b,c",d` gives `a`, `b,c` and `d`. |
| CsvFields.UnclosedQuoteKeepsRest | scripts/csv-to-json.js:90-92 | After an unmatched quote, the rest of the line, commas included, is one field. |
| CsvFields.SplitFields | scripts/csv-to-json.js:85-99 | The splitter never fails. Field count = 1 + commas outside quotes, and every field is trimmed and quote-free. |
| CsvFields.SplitLine | scripts/csv-to-json.js:85-99 | The character loop with one quote flag computes the fields. |
| Hours.TryShapeSound | scripts/csv-to-json.js:15 | Trying one path through the pattern yields only an occurrence of that path at the start of the text. |
| Hours.TryShapeComplete | scripts/csv-to-json.js:15 | Every occurrence at the start of the text is found by trying its own path. |
| Hours.OccurrenceUniqueByShape | scripts/csv-to-json.js:15 | One path through the pattern matches in at most one way. |
| Hours.MatchFromSpec | scripts/csv-to-json.js:15 | Trying the paths from a given rank finds an occurrence of the least rank not below it. |
| Hours.MatchPrefix | scripts/csv-to-json.js:15 | A match at a position is an occurrence there at least three characters long. |
| Hours.MatchPrefixIsLeastRank | scripts/csv-to-json.js:15 | The match at a position is the one backtracking reaches first: 2 hour digits before 1, the colon before none, the minutes before none. There is no match exactly when no occurrence exists. |
| Hours.MatchPrefixBeats | scripts/csv-to-json.js:15 | When any occurrence starts at a position, the pattern matches there, with a rank no later than it. |
| Hours.FullTokenMatchesItself | scripts/csv-to-json.js:15 | A time with a colon and minutes, written on its own, is matched at its start as exactly that time. |
| Hours.MatchFromFirstFit | scripts/csv-to-json.js:15 | The first path in backtracking order that fits is the match. |
| Hours.MatchStartsWithDigit | scripts/csv-to-json.js:15 | A match starts with a digit. |
| Hours.NoMatchWithoutDigit | scripts/csv-to-json.js:15 | No match starts at a non-digit. |
| Hours.DigitThenPeriod | scripts/csv-to-json.js:15 | A digit followed by AM or PM (any case) matches as a one-digit hour without minutes. |
| Hours.ScanFrom | scripts/csv-to-json.js:19-33 | Every match of the scan lies inside the text and is one the pattern can produce. |
| Hours.ScanFromIsGlobalScan | scripts/csv-to-json.js:19-33 | The `exec` loop with the g flag returns, in order, the leftmost match at or after the previous match's end. It skips no position that holds a match. |
| Hours.Scan | scripts/csv-to-json.js:19-33 | Every match found in the whole text lies inside it and is one the pattern can produce. |
| Hours.GlobalScanLast | scripts/csv-to-json.js:19-33 | The last match of a global scan is a match, and no match follows its end. |
| Hours.ScanSkipsNonDigits | scripts/csv-to-json.js:19-33 | A scan from before a run of non-digits equals the scan from after it. |
| Hours.MinuteText | scripts/csv-to-json.js:21 | The minutes are two digits: the matched digits when the group took part, "00" when it did not. |
| Hours.To24 | scripts/csv-to-json.js:25-30 | 12 AM gives 0 and 12 PM gives 12. For hours 1 to 12, AM gives 0 to 11 and PM gives 12 to 23. The hour modulo 12 is kept. Every other hour, 0 and 13 and above included, is kept for AM and gains 12 for PM. |
| Hours.To24Injective | scripts/csv-to-json.js:25-30 | Within one period, distinct hours 1 to 12 give distinct 24-hour values. |
| Hours.To24AtMost23 | scripts/csv-to-json.js:25-30 | The result is at most 23 exactly when the hour is at most 12 for PM, or at most 23 for AM. |
| Hours.ClockText | scripts/csv-to-json.js:32 | The text is the hour padded to two digits and no further (a longer hour field never starts with 0), a colon and the minutes; it reads back as the 24-hour value. |
| Hours.Clock24 | scripts/csv-to-json.js:20-32 | A match's output is the 24-hour value of its hour and period, padded to two digits and no further, with its minutes. |
| Hours.Clock24Valid | scripts/csv-to-json.js:20-32 | The output is a valid `HH:MM` exactly when the 24-hour value is at most 23 and the minutes at most 59. |
| Hours.ClockTextValid | scripts/csv-to-json.js:32 | `hh:mm` text is a valid clock time exactly when the hour is at most 23 and the minutes at most 59. |
| Hours.OpeningIsLeftmostMatch | scripts/csv-to-json.js:35-41 | With two or more matches, the opening time comes from the leftmost position that holds a match. |
| Hours.ClosingIsLastMatch | scripts/csv-to-json.js:35-41 | With two or more matches, the closing time comes from the last match, after which the text holds no match. The middle matches play no part. |
| Hours.ParseOperatingHours | scripts/csv-to-json.js:13-48 | With fewer than two matches the hours are 11:00 and 22:00. Otherwise the opening time is the first match and the closing time the last, each converted by the 12-to-24 rule with its minutes. |
| Hours.NoDigitsGiveDefault | scripts/csv-to-json.js:43-47 | A text without digits gives 11:00 and 22:00. |
| HoursExamples.BacktrackingExample830 | scripts/csv-to-json.js:15-32 | "830PM" matches as hour "8" with minutes "30" and gives "20:30". |
| HoursExamples.BacktrackingExample1030 | scripts/csv-to-json.js:15-32 | "1030AM" matches as hour "10" with minutes "30" and gives "10:30". |
| HoursExamples.OneDigitHourWithMinutes | scripts/csv-to-json.js:15 | Three digits and a period match as a one-digit hour and two minute digits. |
| HoursExamples.TwoDigitHourWithMinutes | scripts/csv-to-json.js:15 | Four digits and a period match as a two-digit hour and two minute digits. |
| HoursExamples.NoTwoDigitHourBeforePeriod | scripts/csv-to-json.js:15 | With three digits before the period, no two-digit-hour path without a colon fits. |
| HoursExamples.WeekExample | scripts/csv-to-json.js:35-47 | "Mon-Fri 8AM-5PM, Sat 9AM-1PM" gives opening "08:00" and closing "13:00". |
| HoursExamples.SingleTimeGivesDefault | scripts/csv-to-json.js:35-47 | "Open 9AM daily" holds one match and so gives 11:00 and 22:00, not 09:00 twice. |
| HoursExamples.MidnightExample | scripts/csv-to-json.js:15-32 | "12:00 AM" matches as one time and gives "00:00". |
| Price.MatchPriceAt | scripts/csv-to-json.js:53 | A match at a position is "$", a digit run, "-" and a digit run spelled out there. |
| Price.MatchPriceAtComplete | scripts/csv-to-json.js:53 | Any `$low-high` spelled out at a position is found there, with the same first group. |
| Price.MatchPriceAtGreedy | scripts/csv-to-json.js:53 | The second group takes the whole digit run. |
| Price.FindPriceFrom | scripts/csv-to-json.js:53 | `match` without g returns the match at the leftmost position holding one, or none when no position does. |
| Price.FindPrice | scripts/csv-to-json.js:53 | The match is at the leftmost position of the text that holds one, or there is none when no position does. |
| Price.ConvertPriceRange | scripts/csv-to-json.js:51-62 | The result is always one to four "$". Text without a range gives "$$". |
| Price.TierFromSum | scripts/csv-to-json.js:55-59 | The tier depends only on low + high, with strict thresholds at 30, 50 and 70. |
| Price.TierMonotone | scripts/csv-to-json.js:55-59 | A larger low + high never gives fewer dollar signs. |
| Price.WholeRangeTier | scripts/csv-to-json.js:53-59 | A text that is exactly one range `$low-high` is priced by low + high. |
| Price.TierBoundaries | scripts/csv-to-json.js:56-59 | Averages of exactly 15, 25 and 35 fall into the higher tier: "$10-20" gives "$$", "$20-30" gives "$$$" and "$30-40" gives "$$$$". |
| Price.SpacedRangeIsDefault | scripts/csv-to-json.js:61 | "$15 - 25" holds no range and gives "$$". |
| Geocode.LocationTable | utils/distance.ts:71-96 | The table has 24 entries in the `Object.entries` order: the eleven array-index keys first, in ascending numeric order, and no array index after them. |
| Geocode.ZipEntry | utils/distance.ts:85-95 | The first eleven keys are five-digit array-index keys with their numeric values. |
| Geocode.AreaEntry | utils/distance.ts:72-84 | The other keys start with a letter, so they are not array indices. |
| Geocode.EnumerationOrder | utils/distance.ts:71-99 | The table of entries puts the ZIP keys first, each smaller than the next, and no array-index key after them. |
| Geocode.KeyPositions | utils/distance.ts:72-95 | Where the named keys sit in the walk. The `houston` entry holds the default coordinates. |
| Geocode.FirstKeyFrom | utils/distance.ts:99-103 | The lookup gives the first position at or after the start whose key occurs in the text. None means no such key occurs. |
| Geocode.FirstKeyFromIsFirst | utils/distance.ts:99-103 | The lookup gives k exactly when key k occurs and no earlier key does. |
| Geocode.DecidingKeyIsFirst | utils/distance.ts:68-103 | The deciding key is the first key in walk order that occurs in the lower-cased address. |
| Geocode.Geocode | utils/distance.ts:67-107 | The result is never null. It is a table value or the default coordinates. |
| Geocode.MockGeocode | utils/distance.ts:99-106 | The loop over the entries returns the resolver's result. |
| Geocode.NoKeyGivesDefault | utils/distance.ts:105-106 | When no key occurs, the result is (29.7604, -95.3698). |
| Geocode.GeocodeIgnoresCase | utils/distance.ts:68 | Lower-casing the address first changes nothing. |
| Geocode.GeocodeOfFirst | utils/distance.ts:99-103 | The result is the coordinates of the first occurring key. |
| Geocode.EarlierKeyWins | utils/distance.ts:99-103 | A key walked later never decides when an earlier one occurs. |
| Geocode.ZipCodesComeFirst | utils/distance.ts:85-95 | A listed ZIP code in the address decides over any neighbourhood name. |
| Geocode.SmallerZipWins | utils/distance.ts:85-95 | Of two listed ZIP codes, the numerically smaller decides. |
| Geocode.BlockKeyNeverDecides | utils/distance.ts:99-103 | A key containing an earlier key never decides. |
| Geocode.DowntownHoustonNeverDecides | utils/distance.ts:72-74 | "downtown houston" is never the deciding key. |
| Geocode.HoustonBeatsAreas | utils/distance.ts:72 | An address naming `houston` and no listed ZIP code gets the city centre, whatever area it also names. |
| Geocode.MemorialBeatsMedicalCenter | utils/distance.ts:76-81 | An address naming `memorial` never resolves to the medical center. |
| Geocode.NoZipWithoutSeven | utils/distance.ts:85-95 | An address without a "7" matches no ZIP code. |
| Geocode.GalleriaExample | utils/distance.ts:75 | "I'm near the Galleria today" gives (29.7384, -95.4624). |
| Geocode.GalleriaHoustonExample | utils/distance.ts:72-75 | "Galleria, Houston" gives the city centre. |
| Geocode.ZipExample | utils/distance.ts:95 | "houston 77099" gives (29.6589, -95.5812). |
| RestaurantCard.ParseInt | components/RestaurantCard.tsx:12 | `parseInt` gives a number only when the text holds a digit. |
| RestaurantCard.ParseIntOfDigits | components/RestaurantCard.tsx:12 | A leading digit run is read as its decimal value, and what follows is ignored. |
| RestaurantCard.ParseIntOfNumeral | components/RestaurantCard.tsx:12 | `parseInt` reads back what `toString` writes. |
| RestaurantCard.PeriodOf | components/RestaurantCard.tsx:13 | The period is "AM" or "PM". |
| RestaurantCard.FormatTime | components/RestaurantCard.tsx:10-16 | The label is at least five characters long and ends in a space and "AM" or "PM". |
| RestaurantCard.FormatTimeOfFields | components/RestaurantCard.tsx:11-15 | For `hh:mm` the label is the display hour, unpadded, then ":", the minutes verbatim, and PM exactly when the hour is 12 or more. |
| RestaurantCard.DisplayHourRange | components/RestaurantCard.tsx:14 | For hours 0 to 23 the display hour is 1 to 12. 0 shows as 12, 12 as 12, and 13 to 23 as the hour minus 12. |
| RestaurantCard.DisplayHourRoundTrip | components/RestaurantCard.tsx:13-14 | Applying the import's 12-to-24 rule to the card's display hour and period gives back every hour 0 to 23. |
| RestaurantCard.DisplayHour | components/RestaurantCard.tsx:14 | For hours 0 to 23 the display hour is 1 to 12, and the import's 12-to-24 rule maps it and its period back to the hour. |
| RestaurantCard.To24RoundTrip | components/RestaurantCard.tsx:13-14 | The card's display hour inverts the 12-to-24 rule for hours 1 to 12, and its period is PM exactly for PM. |
| RestaurantCard.FormatTimeRoundTrip | components/RestaurantCard.tsx:10-16 | The card's label of an imported `HH:MM` is itself a time text. The import's pattern matches exactly that time at the start of the label, and importing it gives the same `HH:MM` back. |
| RestaurantCard.MorningHourUnpadded | components/RestaurantCard.tsx:15 | "0h:mm" for h 1 to 9 shows as "h:mm AM", without padding. |
| RestaurantCard.MidnightIsTwelve | components/RestaurantCard.tsx:14 | "00:mm" shows as "12:mm AM". |
| RestaurantCard.ToNumberOfDigits | components/RestaurantCard.tsx:24 | `Number` of a digit text is its decimal value. |
| RestaurantCard.ToNumber | components/RestaurantCard.tsx:24 | Blank text reads as 0. A number read from text that is not blank ends in a digit. |
| RestaurantCard.MinuteOfDay | components/RestaurantCard.tsx:24-27 | A minute of the day exists only for a text with a colon. |
| RestaurantCard.MinuteOfDayOfClock | components/RestaurantCard.tsx:24-27 | For a valid `HH:MM`, the minute of the day is 60 × hours + minutes. |
| RestaurantCard.IsOpenNow | components/RestaurantCard.tsx:18-30 | Open implies both times read as numbers. |
| RestaurantCard.OpenIffWithinWindow | components/RestaurantCard.tsx:29 | For valid times, open exactly when opening ≤ now < closing. |
| RestaurantCard.ClosedAtClosingMinute | components/RestaurantCard.tsx:29 | Closed at the closing minute. |
| RestaurantCard.OvernightNeverOpen | components/RestaurantCard.tsx:29 | Never open when closing is not after opening, such as overnight or equal times. |
| RestaurantCard.DefaultWindow | components/RestaurantCard.tsx:22-29 | The default hours 11:00 to 22:00 are open exactly for minutes 660 ≤ now < 1320. |
| RestaurantCard.Trunc | components/RestaurantCard.tsx:34 | The rounding of `%` is toward zero: for a non-negative value the integer at or just below it, for a negative value the integer at or just above it. |
| RestaurantCard.RemOne | components/RestaurantCard.tsx:34 | `rating % 1` lies strictly between -1 and 1, has the sign of the rating, and the rating minus it is an integer. |
| RestaurantCard.Stars | components/RestaurantCard.tsx:32-35 | The three counts always sum to 5, and the full count is the floor of the rating. |
| RestaurantCard.StarsRoundDownToHalf | components/RestaurantCard.tsx:33-35 | For a non-negative rating, the shown stars are the rating rounded down to a half. |
| RestaurantCard.NegativeRatingHasNoHalf | components/RestaurantCard.tsx:34 | A negative rating has no half star and a negative full count. |
| RestaurantCard.StarText | components/RestaurantCard.tsx:39-41 | The drawn text is five characters long. |
| RestaurantCard.StarTextDefinedIff | components/RestaurantCard.tsx:39-41 | The stars can be drawn, with no negative count, exactly for 0 ≤ rating < 5.5. |
| RestaurantCard.StarTextContents | components/RestaurantCard.tsx:39-41 | The drawn text is the full stars, then a half star exactly when there is one, then the empty stars. |
| RestaurantCard.PriceColor | components/RestaurantCard.tsx:46-59 | The class is one of five colour classes. |
| RestaurantCard.TierColorsDistinct | components/RestaurantCard.tsx:47-57 | The four tiers get four distinct classes, none of them gray. |
| RestaurantCard.ColoredIffTier | components/RestaurantCard.tsx:46-58 | The class is not gray exactly when the text is one to four "$". |
| RestaurantCard.ImportedTierColored | components/RestaurantCard.tsx:46-58 | Every price the import produces gets a non-gray class. |
| RestaurantCard.LookupFrom | components/RestaurantCard.tsx:146 | A found emoji belongs to a table entry with exactly that cuisine. None means no entry has it. |
| RestaurantCard.CuisineEmoji | components/RestaurantCard.tsx:124-147 | The emoji is the fallback or the emoji of a table entry with exactly that cuisine. |
| RestaurantCard.EmojisAreSingle | components/RestaurantCard.tsx:125-144 | Every listed emoji is one code point. |
| RestaurantCard.FallbackIffUnlisted | components/RestaurantCard.tsx:146 | The fallback is returned exactly when the cuisine is not a key. |
| RestaurantCard.ListedEmoji | components/RestaurantCard.tsx:125-146 | A listed cuisine gets its own emoji. |
| RestaurantCard.KeysCapitalised | components/RestaurantCard.tsx:125-144 | Every key starts with a capital letter. |
| RestaurantCard.LowerCaseGetsFallback | components/RestaurantCard.tsx:146 | The lookup is case-sensitive: a cuisine starting in lower case gets the fallback. |
| RestaurantCard.ThaiSharesWithVietnamese | components/RestaurantCard.tsx:132-136 | Thai and Vietnamese share one emoji. |
| RestaurantCard.DefaultCuisineListed | components/RestaurantCard.tsx:131 | The import's default cuisine "Indian" has its own entry. |

## Left out

- File reading and writing, and the console output of the import script
  (`scripts/csv-to-json.js:1-6`, `128-135`): these are I/O. The catalog is the value
  the script would write.
- The unused `headers` array (`scripts/csv-to-json.js:10`) is left out, except that
  reading `lines[0]` fails on a file with no non-blank line.
- `generateCoordinates` (`scripts/csv-to-json.js:68-76`) uses floating-point
  trigonometry. It is the parameter `place` of the catalog builder, which passes the
  same `(index, total)` arguments.
- `parseFloat` of the rating (`scripts/csv-to-json.js:109`) is a library call. It is
  a parameter returning `None` for NaN.
- The haversine distance, `toRadians` and `formatDistance` (`utils/distance.ts:7-55`)
  are floating-point rounding and are not part of this model.
- The favourites API route (`app/api/restaurants/favorites/route.ts`) is request
  plumbing around a module-global map and is not part of this model.
- The JSX rendering and `new Date()` of the card are left out. The current minute of
  the day is the parameter `now` of `IsOpenNow`.
- The search-parameter and API-response types (`types/restaurant.ts:17-27`) carry no
  behaviour.
- Numbers are Dafny `real` and `int`. There is no IEEE-754 rounding, no NaN except as
  `None`, and no `-0`. The coordinates are the decimal literals of the source.
- Text.ToLower: only `A` to `Z` are lower-cased. The keys are ASCII lower-case
  letters, digits and spaces. The only non-ASCII characters that lower-case into
  ASCII are U+0130 and U+212A, which give `i` followed by U+0307 and `k`, and neither
  can complete a key. So the geocoder's result is the same as with full Unicode
  lower-casing, but that equivalence is argued, not proved.
- RestaurantCard.ToNumber: `Number` is modelled only for an optionally signed run of
  decimal digits and for blank text. Decimals, exponents, hexadecimal and `Infinity`
  read as NaN here.
- RestaurantCard.CuisineEmoji: keys inherited from `Object.prototype` (such as
  `"constructor"`) are not modelled. For those cuisines the source returns an
  inherited function rather than the fallback.
- Text.IsSpace: white space is the set JavaScript's `\s` and `trim` use, written out
  character by character.
