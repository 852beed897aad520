# WasteMindR crawler core in Dafny

A verified model of the core of the WasteMindR crawler scripts. They
join Freiburg's waste-collection calendar to OpenStreetMap street
geometries. The model covers three parts.

- **The street-name normaliser** `Street.normalizeName` (street.py and
  crawlTrashCollections.py hold the same code; it is modelled once, in
  module `StreetName`). It is a fixed pipeline of string rewrites, and
  every regular expression is written out by hand over `seq<char>`. Its
  result is the join key between the two data sources. `Normalize` returns
  `None` where Python raises (`re.match(...)` is `None`).
  `NormalizeExamples` works through typical spellings of street names:
  umlauts, house numbers, annotations, hyphens, the spellings of
  "Straße", "St." and "Sankt", and the failing inputs.
- **Schedule codes and the join** (crawlTrashCollections.py).
  - Dates are day ordinals, with 0001-01-01 as 0. They use the proleptic
    Gregorian calendar (`Calendar`), and the weekday is the ordinal mod 7,
    Monday being 0.
  - The three expanders of `AwsRow` are each a function that states the
    dates, plus a method with the generator's loop proved equal to it
    (`Schedule`).
  - `AwsRow` is a class whose six attributes every assignment squashes
    through `re.sub('\s+', ' ', v).strip()`. Its `getCSV` emits the five
    categories in chain order (`AwsRows`).
  - The `__main__` loop looks up each row's normalised street name in the
    last-wins key map of the streets table, sets the location id of a
    matched row, writes every row, and records each matched street once,
    in first-match order (`CollectionJoin`).
- **Geometry accumulation.**
  - `Line` (line.py) is an append-only point list stored longitude first
    (`Lines`).
  - `Multiline` (multiline.py) is a two-state object: it collects lines
    until `getWKT` serialises them once into a frozen WKT string, after
    which appends fail (`Multilines`).
  - `Street` (street.py) is a name, an id and a `Multiline`, built either
    from a name and a line or from a CSV row. `getStreetsDictFromCSV` keys
    the streets by normalised name, the last row winning (`Streets`).
  - The loop of `StreetCrawler.getStreets` (crawlStreetData.py) groups
    named ways into streets. It skips ways without a name or with a
    missing node, and it is proved against the functional grouping
    `Grouped` (`StreetCrawler`).

In these places the code does something other than one might expect, and
the model follows the code:
- expansion is bounded by the year argument (2015 in `getCSV`), not by a
  start date or a count;
- weekdays before the first Monday of January are skipped;
- fixed dates are yielded in input order, not sorted;
- an unknown parity token raises KeyError;
- unmatched rows are still written, with an empty location id;
- a row without events leaves a blank line in the collections file;
- the normalised key is not always trimmed: "Str." gives " strasse.".

The number formatting `{:f}` of a coordinate is a parameter
`fmt: real -> string`, about which a lemma assumes only what it requires
(for example that no number contains ","). `uuid4()` is an `IdSource`
that hands out consecutive numbers rendered in decimal, so ids from
different calls are different.

## Model

| member | source | states |
|---|---|---|
| Text.Lower | street.py:45 | `str.lower()`: same length, and no upper-case letter is left |
| Text.LowerChar | street.py:45 | lower-casing keeps digits, word characters and whitespace what they were |
| Text.ReplaceAbsent | street.py:45 | `replace` leaves a string without the pattern's first character unchanged |
| Text.ReplaceSkip | street.py:45 | text before the first possible start of the pattern is copied unchanged |
| Text.ReplaceHere | street.py:45 | an occurrence at the front is rewritten and scanning resumes after it |
| Text.ReplaceCharGone | street.py:45 | replacing a single character removes it everywhere unless the replacement reintroduces it |
| Text.ReplaceChars | street.py:45 | every character of a `replace` result comes from the input or the replacement |
| Text.Strip | street.py:47 | `strip()` returns the slice of the input between whitespace ends, and neither of its ends is whitespace |
| Text.StripTrimmed | crawlTrashCollections.py:72 | stripping a string whose ends are not whitespace changes nothing |
| Text.StripKeepsNonSpace | crawlTrashCollections.py:72 | `strip` removes whitespace only |
| Text.CollapseSpaces | crawlTrashCollections.py:72 | `re.sub('\s+', ' ', s)`: empty exactly when the input is, and it starts as the input does |
| Text.CollapseSpacesSingle | crawlTrashCollections.py:72 | after collapsing, the only whitespace is single plain spaces |
| Text.CollapseSingleSpaced | crawlTrashCollections.py:72 | collapsing leaves an already single-spaced string unchanged |
| Text.CollapseKeepsNonSpace | crawlTrashCollections.py:72 | collapsing keeps every non-whitespace character, in order |
| Text.Split | crawlTrashCollections.py:99 | `split(sep)` gives at least one field, and no field contains the separator |
| Text.JoinSplit | crawlTrashCollections.py:99 | joining the fields of a split gives back the string |
| Text.SplitJoin | line.py:18 | splitting a join of separator-free fields gives back the fields |
| Text.SplitAt | crawlTrashCollections.py:108 | a separator between two strings separates their fields |
| Text.JoinSnoc | line.py:18 | joining one more part adds the separator unless it is the first part |
| Text.JoinCount | multiline.py:27 | the occurrences of a character in a join are those in the parts when the separator lacks it |
| Text.WrittenLines | crawlTrashCollections.py:238-253 | a file written as a header and one `write(line + '\n')` per line ends in a line break |
| Text.WrittenLinesSplit | crawlTrashCollections.py:238-253 | read back line by line, a written file is its header, the lines of each text in turn, and an empty rest |
| Text.DecimalText | street.py:21 | the decimal rendering of a natural is non-empty and all digits |
| Text.ZeroPadded | crawlTrashCollections.py:74 | `'%0wd' % n` has at least `w` digits, all digits |
| Text.DigitsValueOfDecimal | street.py:21 | reading back a rendered number gives the number |
| Text.DigitsValueOfPadded | crawlTrashCollections.py:74 | reading back a zero-padded number gives the number |
| Text.DecimalTextInjective | street.py:21 | distinct numbers are rendered as distinct texts |
| StreetName.PreparedIsFolded | street.py:45 | after the `lower`/`replace` chain, no upper-case letter, umlaut, ß, ç, `*` or `-` is left |
| StreetName.ReplaceCleans | street.py:45 | each single-character replacement removes its character and keeps the string clean |
| StreetName.OpenRun | street.py:46 | the non-greedy `.*?` runs up to the first `)` or line break |
| StreetName.DropAnnotationsNone | street.py:46 | a string without `(` has no annotation to remove |
| StreetName.AnnotationRemoved | street.py:46 | an annotation `(…)` on one line is removed wherever it stands |
| StreetName.DropAnnotationsChars | street.py:46 | removing annotations keeps a subset of the characters |
| StreetName.NonDigitRun | street.py:47 | `\D+` takes the leading run of non-digits and stops at a digit |
| StreetName.LeadingName | street.py:47 | `re.match('.\D+', s).group(0).strip()` fails exactly on a string shorter than two characters, starting with a line break, or with a digit second; otherwise it is the stripped matched prefix |
| StreetName.TrailingNumberDropped | street.py:47 | everything from the first digit after the leading character on is cut off |
| StreetName.LeadingNameChars | street.py:47 | the extracted name keeps a subset of the characters |
| StreetName.MatchLength | street.py:48-55 | a rule matches at a position within the string |
| StreetName.StrasseMatch | street.py:48 | the five alternatives of the `strasse` rule, the first that matches, matched within the string |
| StreetName.SuffixMatch | street.py:49-54 | a suffix after a word character, or after `-`, matched within the string |
| StreetName.SanktMatch | street.py:55 | word-initial `st.` or `sankt` followed by whitespace, matched within the string |
| StreetName.SubNoLead | street.py:48-55 | `re.sub` leaves a string without any rule's lead character unchanged |
| StreetName.SubFromSkip | street.py:48-55 | a stretch without lead characters is copied unchanged by `re.sub` |
| StreetName.SubFromUnfold | street.py:48-55 | one step of `re.sub`'s scan: a match is replaced and scanning resumes after it, any other character is copied |
| StreetName.SubFromChars | street.py:48-55 | every character of a `re.sub` result comes from the input or the replacement |
| StreetName.HyphenAlternativesIdle | street.py:48-54 | on a string without `-`, the alternatives that begin with `-` never fire |
| StreetName.SubAllHyphenIdle | street.py:48-54 | replacements never introduce `-`, so the later rules see none either |
| StreetName.NormalizeFailsIff | street.py:47 | normalisation raises exactly when the prepared string without annotations does not match `.\D+` |
| StreetName.KeyTextIsFolded | street.py:45-47 | the extracted name is folded |
| StreetName.NormalizedIsFolded | street.py:45-56 | the key is lower-case and free of umlauts, ß, ç, `*` and `-` |
| StreetName.HyphenAlternativesNeverFire | street.py:45-54 | because `-` has already become a space, the normaliser gives the same result with the `-str`, `-strasse` and `-<suffix>` alternatives switched off |
| NormalizeExamples.MuellerStrasse | street.py:45-48 | "Müllerstraße" normalises to "mueller strasse" |
| NormalizeExamples.HauptStrasse | street.py:45-48 | "Hauptstraße" normalises to "haupt strasse" |
| NormalizeExamples.HouseNumberDropped | street.py:47-48 | "Hauptstraße 12" normalises to "haupt strasse", like "Hauptstraße" |
| NormalizeExamples.AnnotationDropped | street.py:46-48 | "Hauptstraße (Nord)" normalises to "haupt strasse", like "Hauptstraße" |
| NormalizeExamples.BahnhofStrasse | street.py:47-48 | "Bahnhofstraße" normalises to "bahnhof strasse" |
| NormalizeExamples.BahnhofStr | street.py:47-48 | "Bahnhofstr" normalises to "bahnhof strasse" |
| NormalizeExamples.BahnhofSpaceStr | street.py:47-48 | "Bahnhof Str" normalises to "bahnhof strasse" |
| NormalizeExamples.BahnhofSpaceStrasse | street.py:47-48 | "Bahnhof Strasse" normalises to "bahnhof strasse" |
| NormalizeExamples.BahnhofStrDot | street.py:47-48 | "Bahnhofstr." keeps its period: "bahnhof strasse." |
| NormalizeExamples.StGeorgen | street.py:55 | "St. Georgen" normalises to "sankt georgen" |
| NormalizeExamples.SanktGeorgen | street.py:55 | "Sankt Georgen" normalises to "sankt georgen", the same key as "St. Georgen" |
| NormalizeExamples.HansSachsWeg | street.py:45-49 | "Hans-Sachs-Weg" and "Hans Sachs Weg" give the same key |
| NormalizeExamples.NoKeyExamples | street.py:47 | "", "A" and "A1" have no key: Python raises on them |
| NormalizeExamples.LeadingSpaceKept | street.py:47-48 | "Str." gives " strasse.": the space put in front of "strasse" is not stripped |
| NormalizeExamples.TransliterateConcat | street.py:45 | the transliteration chain works piecewise on a concatenation |
| NormalizeExamples.SamePrepared | street.py:45-56 | two names with the same prepared string have the same key |
| Calendar.DaysInYear | crawlTrashCollections.py:94 | a year has 365 or 366 days |
| Calendar.DaysInMonth | crawlTrashCollections.py:105 | a month has 28 to 31 days, and 29 exactly for February of a leap year |
| Calendar.MonthsFillYear | crawlTrashCollections.py:105 | the twelve months fill the year exactly |
| Calendar.YearStartNext | crawlTrashCollections.py:94 | consecutive years are as far apart as the first one is long |
| Calendar.YearStartClosed | crawlTrashCollections.py:94 | the first day of a year is the closed form of the Gregorian leap rules |
| Calendar.InYearRange | crawlTrashCollections.py:94 | `date.year == y` holds exactly for the ordinals from 1 January of `y` on, as many as it has days |
| Calendar.InOneYear | crawlTrashCollections.py:94 | an ordinal lies in at most one year |
| Calendar.Weekday | crawlTrashCollections.py:123 | `date.weekday()` is between 0 and 6 and congruent to the ordinal modulo 7 |
| Calendar.WeekdayShift | crawlTrashCollections.py:96 | whole weeks later is the same weekday |
| Calendar.SameWeekday | crawlTrashCollections.py:96 | two days on the same weekday are whole weeks apart |
| Calendar.Ordinal | crawlTrashCollections.py:105 | the ordinal of a valid date lies in its own year |
| Calendar.DateIn | crawlTrashCollections.py:94 | an ordinal in year `y` has a valid date of year `y` with that ordinal |
| Calendar.OrdinalInjective | crawlTrashCollections.py:105 | distinct valid dates have distinct ordinals |
| Calendar.DateOfOrdinal | crawlTrashCollections.py:105 | reading back the date of the ordinal of a date gives that date |
| Calendar.IsoText | crawlTrashCollections.py:74 | `str(date)` has the form `YYYY-MM-DD` |
| Calendar.ParseIso | crawlTrashCollections.py:74 | a parsed `YYYY-MM-DD` text is a valid date |
| Calendar.ParseIsoText | crawlTrashCollections.py:74 | the text of a date reads back as that date |
| Calendar.IsoTextInjective | crawlTrashCollections.py:74 | distinct dates have distinct texts |
| Schedule.DayIndex | crawlTrashCollections.py:25 | a known weekday token maps to 0..6 |
| Schedule.ParityOffset | crawlTrashCollections.py:26 | only `u` and `g` are parity tokens; `g` starts a week later |
| Schedule.FirstDateForWeekday | crawlTrashCollections.py:120-123 | the first Monday on or after 1 January plus `day` days falls on weekday `day`, between 1 and 13 January |
| Schedule.MondayOnOrAfter | crawlTrashCollections.py:123 | `(7 - weekday) % 7` days on is a Monday within the week |
| Schedule.Steps | crawlTrashCollections.py:94-96 | the dates of a `while date.year == year` loop are all in the year and `step` apart, from the first on |
| Schedule.StepsStop | crawlTrashCollections.py:94-96 | the loop stops at the first date that leaves the year |
| Schedule.StepsAt | crawlTrashCollections.py:94-96 | the `i`-th date is `i` steps after the first |
| Schedule.StepsCover | crawlTrashCollections.py:94-96 | every date a whole number of steps after the first that is still in the year is reached |
| Schedule.WeeklyUnknownDay | crawlTrashCollections.py:90-93 | an unknown weekday token yields nothing |
| Schedule.WeeklyDates | crawlTrashCollections.py:88-96 | a weekday token yields dates a week apart from the first date of that weekday on, stopping exactly when the next week leaves the year |
| Schedule.WeeklyMembers | crawlTrashCollections.py:88-96 | the weekly dates are exactly the days of the year on that weekday from its first Monday-started week on |
| Schedule.IterWeekly | crawlTrashCollections.py:88-96 | the generator's loop yields exactly the weekly dates |
| Schedule.BiweeklyWithoutSlash | crawlTrashCollections.py:108-111 | a code without `/` is expanded weekly |
| Schedule.BiweeklyFails | crawlTrashCollections.py:112-116 | a biweekly code raises KeyError exactly when its weekday is known and its parity is neither `u` nor `g`; an unknown weekday yields nothing |
| Schedule.BiweeklyDates | crawlTrashCollections.py:112-119 | parity `u` starts at the weekly first date and `g` one week later; steps are two weeks and stop exactly when the next leaves the year |
| Schedule.BiweeklyOnWeekday | crawlTrashCollections.py:112-119 | both parities give dates of the year on the code's weekday |
| Schedule.BiweeklyApart | crawlTrashCollections.py:117-119 | consecutive biweekly dates are two weeks apart |
| Schedule.BiweeklyParityShift | crawlTrashCollections.py:116 | the `g` dates are the `u` dates a week later, with at most the last one missing |
| Schedule.IterBiweekly | crawlTrashCollections.py:106-119 | the generator's loops yield exactly the biweekly dates, or raise the same KeyError |
| Schedule.TokenDate | crawlTrashCollections.py:104-105 | a matching token names a date of the given year (the contract); the body reads the day from the first group and the month from the second |
| Schedule.DayMonthDatesInOrder | crawlTrashCollections.py:99-105 | day/month dates are those of the tokens in input order up to the first non-matching token; an impossible date raises ValueError |
| Schedule.DayMonthInYear | crawlTrashCollections.py:105 | every day/month date lies in the year |
| Schedule.BiweeklyInYear | crawlTrashCollections.py:117-119 | every biweekly date lies in the year |
| Schedule.DayMonthEmpty | crawlTrashCollections.py:99-103 | the empty code has one empty token, which does not match, so it yields nothing |
| Schedule.DayMonthStep | crawlTrashCollections.py:100-105 | one round of the token loop stops, raises or yields one date |
| Schedule.IterDayMonth | crawlTrashCollections.py:97-105 | the generator's loop yields exactly the day/month dates, or raises the same ValueError |
| AwsRows.Squash | crawlTrashCollections.py:72 | a stored value has no whitespace at its ends, single plain spaces inside, and the input's other characters in order |
| AwsRows.SquashFixed | crawlTrashCollections.py:72 | a squashed string is its own squash |
| AwsRows.SquashIdempotent | crawlTrashCollections.py:72 | squashing twice is squashing once |
| AwsRows.With | crawlTrashCollections.py:71-72 | assigning one attribute changes that attribute and no other |
| AwsRows.AssignKeepsSquashed | crawlTrashCollections.py:71-72 | an assignment through `__setattr__` keeps every attribute squashed |
| AwsRows.AwsRow.constructor | crawlTrashCollections.py:61-67 | a new row has every attribute empty, and so squashed |
| AwsRows.AwsRow.Set | crawlTrashCollections.py:71-72 | `setattr` stores the squashed value in that attribute and leaves the others |
| AwsRows.AwsRow.GetCsv | crawlTrashCollections.py:73-79 | `getCSV()` is the text of the row's events, or the exception of the first expander that raises |
| AwsRows.RowEvents | crawlTrashCollections.py:73-79 | every event of a row lies in 2015 |
| AwsRows.RowEventDates | crawlTrashCollections.py:73-79 | each category collects on the dates of its own code; paper and plastic share the biweekly dates |
| AwsRows.RowEventsInOrder | crawlTrashCollections.py:74-79 | the events come grouped by category: yard_waste, other, organic, paper, plastic |
| AwsRows.RowEventsFail | crawlTrashCollections.py:75-79 | a row fails exactly when its day/month code or its biweekly code raises, the day/month code deciding which |
| AwsRows.CsvLines | crawlTrashCollections.py:74 | one `"type","YYYY-MM-DD",geoId` line per event |
| AwsRows.RowCsvLines | crawlTrashCollections.py:74 | the text of a row splits back into one line per event |
| AwsRows.SquashedHasNoBreak | crawlTrashCollections.py:72 | a squashed value never holds a line break |
| StreetTable.LastIndex | crawlTrashCollections.py:205 | every key of the dict comprehension maps to a row position |
| StreetTable.LastIndexFails | crawlTrashCollections.py:205 | the comprehension raises exactly when some row's key does |
| StreetTable.LastIndexKeys | crawlTrashCollections.py:205 | the keys of the map are exactly the keys of the rows |
| StreetTable.LastIndexLast | crawlTrashCollections.py:205 | each key maps to the last row that has it |
| CollectionJoin.StreetsDict | crawlTrashCollections.py:200-205 | the key map exists exactly when every row is long enough and its name normalises |
| CollectionJoin.StreetsDictEntry | crawlTrashCollections.py:205 | a name is a key exactly when some row normalises to it, and its record is built from the last such row |
| CollectionJoin.StreetCsv | crawlTrashCollections.py:197-198 | a record's line exists exactly when its row has at least three cells |
| CollectionJoin.StreetCsvFirstCells | crawlTrashCollections.py:198 | cells after the third do not reach the line |
| CollectionJoin.StreetCsvOwnLayout | crawlTrashCollections.py:197-198 | in a table laid out like its own header, the line holds the record's location id and name |
| CollectionJoin.Put | crawlTrashCollections.py:244 | `usedStreets[uuid] = street`: the key reads the street, a new key goes last, an existing one keeps its place |
| CollectionJoin.Lookup | crawlTrashCollections.py:241-242 | the lookup raises exactly when the name does not normalise, and hits exactly when the key is in the map |
| CollectionJoin.Matched | crawlTrashCollections.py:243-247 | a hit sets the squashed location id and nothing else; a miss changes nothing |
| CollectionJoin.FoldRows | crawlTrashCollections.py:240-249 | the loop raises exactly when some turn raises; otherwise each turn adds its row and its text |
| CollectionJoin.FoldUsed | crawlTrashCollections.py:240-249 | each used street is listed once, and an id is used exactly when some turn matched a street with it |
| CollectionJoin.JoinAllRows | crawlTrashCollections.py:240-249 | every row is written whether or not it matched; a matched row takes its street's id and nothing else changes |
| CollectionJoin.JoinAllUsed | crawlTrashCollections.py:240-249 | the used streets are listed once each, and an id is used exactly when some row matched a street with it |
| CollectionJoin.JoinAllUsedFound | crawlTrashCollections.py:240-249 | every used street is the one some matched row found |
| CollectionJoin.UsedLinesEach | crawlTrashCollections.py:252-253 | each used street is written on its own line in first-match order; a short street row raises |
| CollectionJoin.CollectionsLines | crawlTrashCollections.py:238-249 | the collections file reads back as its header, then the lines of each row's `getCSV()` in row order |
| CollectionJoin.UsedStreetsLines | crawlTrashCollections.py:250-253 | the used-streets file reads back as its header, then one line per used street, each once |
| CollectionJoin.WriteRow | crawlTrashCollections.py:241-249 | one turn of the loop updates row `i` in place as its turn says and leaves the other rows alone |
| CollectionJoin.WriteRows | crawlTrashCollections.py:238-249 | the loop over the rows updates them in place and returns the collections text and the used streets, or the first exception |
| CollectionJoin.WriteUsedStreets | crawlTrashCollections.py:250-253 | the loop over the used streets returns the used-streets text, or the first IndexError |
| CollectionJoin.WriteCollections | crawlTrashCollections.py:237-253 | the whole block writes both files as the joined rows say and leaves every row as the join left it |
| Lines.Line.constructor | line.py:13-14 | a new line has no points |
| Lines.Line.AddPoint | line.py:15-16 | `addPoint(lat, lng)` appends exactly one point, stored as (lng, lat), and keeps the earlier ones |
| Lines.Entries | line.py:18 | one `"{:f} {:f}"` entry per point, in order |
| Lines.EmptyWkt | line.py:17-18 | a line without points is written `()` |
| Lines.WktEntries | line.py:17-18 | the text is parenthesised, and splitting its inside at "," gives one entry per point in insertion order |
| Lines.EntryFields | line.py:18 | an entry splits at its space into longitude, then latitude |
| Lines.WktAppend | line.py:15-18 | adding a point extends the text by one entry, after a "," when there were points before |
| Multilines.ShapesOf | multiline.py:27 | the points of each collected line, in order |
| Multilines.Multiline.constructor | multiline.py:13-17 | a new geometry stores its argument; it is frozen when the argument is a non-empty string and collects lines otherwise |
| Multilines.Multiline.AddLine | multiline.py:18-22 | a line is appended at the end exactly while `wkt` is falsy; otherwise the call fails and nothing changes |
| Multilines.Multiline.GetWkt | multiline.py:23-31 | with no lines, the stored `wkt` is returned and nothing changes; otherwise the lines are serialised once, dropped and the non-empty text cached, so later calls return the same text and appends fail |
| Multilines.MultiTextKind | multiline.py:26-29 | one line is written `LINESTRING` plus its own text, more as `MULTILINESTRING` |
| Multilines.GroupCount | multiline.py:26-29 | the text opens one parenthesised group per line, plus one around them all for a `MULTILINESTRING` |
| Streets.IdSource.Fresh | street.py:21 | each call returns the id of the next unused number |
| Streets.IdTextInjective | street.py:21 | ids of different numbers are different |
| Streets.Street.FromName | street.py:18-23 | a street from a name gets a new id and a new geometry holding exactly that one line |
| Streets.Street.FromRow | street.py:24-27 | a street from a row takes its name and id from their columns, and a geometry storing the WKT column |
| Streets.Street.AddLine | street.py:28-29 | the line goes to the street's geometry, as `Multiline.addLine` says |
| Streets.Street.GetCsv | street.py:30-33 | the line is the id, the quoted name and the quoted WKT text of the geometry, written `None` when there is none; afterwards a geometry that held lines is frozen: its text is stored, its line list is gone and later appends fail |
| Streets.CsvLineFields | street.py:33 | cut at its double quotes, a street's line reads back as id, name and geometry |
| Streets.EntryKey | street.py:42 | a row has a key exactly when its columns exist and its name normalises |
| Streets.StreetsDict | street.py:37-42 | the key map exists exactly when every row has a key; its keys are the rows' keys, and each street is new and built from the last row with its key |
| StreetCrawler.WayPoints | crawlStreetData.py:112-114 | a way's points exist exactly when every node id is in the node map, one point per node |
| StreetCrawler.GroupedNamed | crawlStreetData.py:108-118 | a name is a key of the grouping exactly when some kept way has it, and it holds the points of those ways in encounter order |
| StreetCrawler.NamedSome | crawlStreetData.py:108-118 | a name has lines exactly when some way with that name has all its nodes |
| StreetCrawler.BuildLine | crawlStreetData.py:112-114 | the line is built point by point in node order, and the build fails exactly when a node is missing |
| StreetCrawler.AddWay | crawlStreetData.py:109-120 | one way changes the streets as `Step` says: skipped without a name or with a missing node, otherwise its line is appended to the street of its name or starts a new street |
| StreetCrawler.GetStreets | crawlStreetData.py:107-121 | the streets' keys are the names of the kept ways; each street is new, has its name, collects lines, and holds one line per kept way with the name, in order; ids are distinct and issued once per street |

## Left out

- Network and parsing: `AwsCrawler.getRows` (urlopen, lxml, the header `typeMap`), the Overpass query and its result (the model takes a node map and a sequence of ways), and crawlRegionStreets.py, whose loop only collects ways into one `Multiline`.
- File I/O: opening and reading the CSV files, the `csv` module's parsing, `header.index` (the column positions are inputs), exclusive-create writes, argv and usage checks. The written files are modelled by their text.
- `uuid4()` randomness: ids are consecutive numbers rendered in decimal, which keeps exactly the property used, that every call gives a new id.
- `{:f}` float formatting and floating point: coordinates are reals and the formatter is a parameter.
- WKT import: `Multiline(wkt)` only stores the string, as the code does.
- `_getRealIsodate` and both `offsets` tables: the function is never called and reads an attribute that does not exist, so holiday shifts are not part of expansion.
- `__str__` debug methods.
- Unicode: `str.lower` is modelled for ASCII and Latin-1 letters, `\d` as ASCII digits and `\w` as the ASCII and Latin-1 alphanumerics (letters, digits, the superscripts ¹ ² ³ and the fractions ¼ ½ ¾) and `_`. Other scripts' case mappings and word characters are not modelled.
- Schedule.FirstDateForWeekday: years outside 1..9998 are excluded (Python raises OverflowError past 9999); the only caller passes 2015.
- Multilines.Multiline.AddLine: the bare `raise` with no active exception (a RuntimeError) is modelled as a `false` result that changes nothing.
- Exceptions: a run that raises is modelled by the exception alone; what the scripts wrote or yielded before it is not kept.
