# M17 route map: a Dafny model

This project models `CM17RouteMap`, the reflector's directory of M17 hosts.
The directory keeps two tables:

- the alias table (`cs2baseMap`) maps a full callsign to its base callsign;
- the base table (`baseMap`) maps a base callsign to a host record (url,
  IPv4 address, IPv6 address, 16-bit port).

The model covers the directory's operations:

- `Update` normalises a callsign to its base. The base is the text before
  the first space, slash or full stop. A callsign whose first such
  character is at index 0, 1 or 2 is rejected. An update registers the
  alias and replaces the record of its base wholesale.
- `Find` is the exact lookup through the alias table.
- `FindBase` is the structural lookup through the derived base.
- `Erase`, `GetKeys` and `Size` work on the alias table.
- `Read` and `ReadAll` load the distribution file and then the override
  file. Each line is trimmed. Blank lines and comments are skipped. A line
  is split on commas. Its fifth field is parsed as the port and narrowed to
  16 bits. A port that fails to parse throws, which ends the whole load.
- `Save` writes the override file: one line `alias,,ip4,ip6,port,,` for
  each alias whose base has a record with an empty url.

The layers, from the bottom:

- `Text` (trim, split, join, decimal parsing and printing).
- `Callsign` (the normalisation rule).
- `Directory`: a pure value `Dir` with lookups and updates as functions.
- `Loading`: line classification and the load of a file as a fold.
- `Saving`: the saved lines and the round trip.
- `RouteMapObject.RouteMap`: a class holding the two tables as `map`
  fields. Each of its methods is imperative and proved against the
  functions above.

A callsign without a delimiter is accepted, with itself as its base. The
reason is that `find_first_of` returns `npos`, the guard `pos < 3` does not
fire on it, and the substring up to `npos` is the whole string
(`Callsign.BaseSpec`, third ensures).

## Model

| member | source | states |
|---|---|---|
| Callsign.FirstDelimiter | M17RouteMap.cpp:68 | the result is the index of a ' ', '/' or '.' with no such character before it; no result (npos) exactly when the callsign holds none of them |
| Callsign.Base | M17RouteMap.cpp:68-74 | the base, when there is one, is a prefix of the callsign that ends at a delimiter or at the end of the callsign |
| Callsign.BaseSpec | M17RouteMap.cpp:53-56 | a callsign is rejected iff a delimiter occurs at index 0, 1 or 2; otherwise its base is the prefix before the first delimiter, at least three characters long, or the whole callsign when it has no delimiter |
| Directory.Dir.Find | M17RouteMap.cpp:36-48 | found iff the callsign is an alias and its base has a record; the result is that record |
| Directory.Dir.FindBase | M17RouteMap.cpp:50-63 | found iff the callsign is not rejected and its derived base has a record, whatever the alias table says; the result is that record |
| Directory.Dir.Update | M17RouteMap.cpp:65-89 | a rejected callsign leaves the directory as it is; an accepted one adds the callsign to the aliases and its target base to the bases, and no other key |
| Directory.Dir.Erase | M17RouteMap.cpp:150-157 | the base table is unchanged; the alias keys lose exactly the callsign, and every remaining alias keeps its base |
| Directory.UpdateRejected | M17RouteMap.cpp:68-70 | a rejected callsign leaves both tables unchanged, and the structural lookup of it misses |
| Directory.UpdateAccepts | M17RouteMap.cpp:72-75 | every callsign that is not rejected is an alias after its update |
| Directory.UpdateStores | M17RouteMap.cpp:79-87 | after an accepted update the exact lookup finds a record with the given url and port, and each address as given except "" and "none", which are stored empty |
| Directory.UpdateFrame | M17RouteMap.cpp:72-87 | an update adds at most the new alias, keeps every other alias's base, changes only the record of its target base, and replaces that record with one built from the arguments alone |
| Directory.UpdateAliasStable | M17RouteMap.cpp:72-78 | an alias already present keeps its base; a new alias maps to the prefix before its first delimiter |
| Directory.UpdatePreservesValid | M17RouteMap.cpp:72-87 | updates keep the directory invariant: every alias maps to its own derived base, and no stored address is "none" |
| Directory.FindAgreesWithFindBase | M17RouteMap.cpp:50-63 | in a reachable directory the structural and the exact lookups give the same result for every registered alias |
| Directory.UpdateThenLookups | M17RouteMap.cpp:65-89 | after an accepted update both lookups of the callsign give the record just built from the arguments |
| Directory.SharedBaseLastWriteWins | M17RouteMap.cpp:72-87 | two aliases with one base share one record: after an update of either, both find the new record |
| Directory.EraseRemovesAliasOnly | M17RouteMap.cpp:150-157 | erase removes the alias alone: the exact lookup of it misses, all other aliases and the whole base table are untouched, the structural lookup is unchanged, and erasing a missing alias changes nothing |
| Loading.ParseLine | M17RouteMap.cpp:109-113 | a line is skipped exactly when it is blank or starts with '#' after trimming; a data line has at least five fields, and its callsign is the first one |
| Loading.ParseLineSpec | M17RouteMap.cpp:109-113 | a non-skipped line with fewer than five fields is an error; one whose fifth field is not a non-empty digit string throws; otherwise its entry is its first four fields and its port value modulo 65536 |
| Loading.PortIsNarrowed | M17RouteMap.cpp:113 | a line whose port field is the decimal of any n is read as its fields with port n mod 65536 |
| Loading.NonNumericPortThrows | M17RouteMap.cpp:113 | a line whose port field is empty or holds a non-digit throws |
| Loading.CommentIsSkipped | M17RouteMap.cpp:110 | every line whose first character is '#' is skipped |
| Loading.ReadLines | M17RouteMap.cpp:101-117 | the load of one file stops early exactly when some line of it throws |
| Loading.AnyThrowsSpec | M17RouteMap.cpp:108-113 | some line throws exactly when a line at some index classifies as an error |
| Loading.ReadAll | M17RouteMap.cpp:91-99 | the full reload stops early exactly when a line of the distribution file or of the override file throws |
| Loading.SkippedLinesIgnored | M17RouteMap.cpp:108-110 | blank and comment lines have no effect: reading a file is reading its other lines |
| Loading.ReadLinesAppend | M17RouteMap.cpp:108-114 | reading two runs of lines is reading the first, then, unless it threw, the second from where the first left off |
| Loading.AbortStopsAtLine | M17RouteMap.cpp:108-114 | a line that throws ends the load there: the lines before it have been applied, and none after it |
| Loading.ReadLinesPreservesValid | M17RouteMap.cpp:108-114 | loading lines into a reachable directory gives a reachable directory |
| Loading.ReadLinesKeepsUntouchedBase | M17RouteMap.cpp:108-114 | a base that no line writes to keeps its record, or its absence |
| Loading.LastLineForBaseWins | M17RouteMap.cpp:108-114 | the last data line naming a base decides its record, provided the load gets past it |
| Loading.ReadAllIsConcatenation | M17RouteMap.cpp:91-99 | the load clears both tables and is then the load of the distribution file followed by the override file |
| Loading.CsvAbortSkipsCfg | M17RouteMap.cpp:97-98 | when the distribution file throws, the override file is not read |
| Loading.CsvOnlyBaseRemains | M17RouteMap.cpp:97-98 | a base that the override file does not name keeps the record the distribution file gave it |
| Loading.CfgOverridesCsv | M17RouteMap.cpp:97-98 | a base whose last mention is in the override file has the record of that line, whatever the distribution file said |
| Text.DecimalRoundTrip | M17RouteMap.cpp:131 | the decimal text a port is written as parses back to the same number |
| Text.SplitJoin | M17RouteMap.cpp:112 | splitting fields joined by a separator they do not contain gives back the fields |
| Saving.SaveLine | M17RouteMap.cpp:131 | the line starts with the alias followed by a comma |
| Saving.SavedLines | M17RouteMap.cpp:126-134 | the set of lines that saving writes holds the line of every alias whose base has a record with an empty url |
| Saving.SaveLineText | M17RouteMap.cpp:131 | the saved line is the alias, an empty url, the two addresses, the decimal port and two empty fields, comma-separated |
| Saving.ParseSaveLine | M17RouteMap.cpp:131 | a saved line whose alias and addresses hold no comma and no newline, and whose alias does not start with whitespace or '#', reads back as an entry of the alias, an empty url, the two addresses and the port |
| Saving.ReadSavedLines | M17RouteMap.cpp:108-113 | reading saved lines in any order and with any repetition completes, registers exactly their aliases, and gives each of them its saved record |
| Saving.SaveThenReload | M17RouteMap.cpp:119-138 | saving and reloading with an empty distribution file completes, gives exactly the saved aliases, and each finds the record it had |
| Saving.SaveThenReloadOverCsv | M17RouteMap.cpp:91-99 | with a distribution file that loads completely, the saved aliases are still restored with their saved records |
| RouteMapObject.ClassifyLine | M17RouteMap.cpp:109-113 | the loop body's trim, skip test, split and port parse classify a line exactly as the line meaning above does |
| RouteMapObject.RouteMap.Update | M17RouteMap.cpp:65-89 | the new tables are the pure update of the old ones, and the object invariant holds |
| RouteMapObject.RouteMap.Erase | M17RouteMap.cpp:150-157 | the new tables are the pure erase of the old ones, and the object invariant holds |
| RouteMapObject.RouteMap.Size | M17RouteMap.cpp:159-162 | the result is the number of aliases |
| RouteMapObject.RouteMap.GetKeys | M17RouteMap.cpp:140-148 | the result lists exactly the aliases, each once |
| RouteMapObject.RouteMap.Save | M17RouteMap.cpp:119-138 | the written lines are exactly the lines of the aliases whose base has a record with an empty url, one per such alias |
| RouteMapObject.RouteMap.Read | M17RouteMap.cpp:101-117 | the new tables and the outcome are those of the pure load of the lines into the old tables |
| RouteMapObject.RouteMap.ReadAll | M17RouteMap.cpp:91-99 | the tables and the outcome are those of the pure load of the distribution file and then the override file into empty tables |

## Left out

- Locking: the mutex is not modelled, and each method is one atomic step. That `Size` reads the alias table without the lock is not captured.
- Callsign.FirstDelimiter: indices count characters, while `std::string::find_first_of` counts bytes. They agree only for ASCII callsigns. For a callsign such as "ÄB/X", whose UTF-8 form has '/' at byte 3, the source accepts it with base "ÄB"; the model finds '/' at index 2 and rejects it.
- Callsign.BaseSpec: the index-0-to-2 rejection, the three-character minimum and the prefix are in characters, not bytes, so they match the source only for ASCII callsigns. Strings throughout the model are character sequences with no encoding.
- Files: paths, `CFG_DIR`, opening, `getline` and truncation are left out.
  - A file is given as its sequence of lines, and a file that does not open is the empty sequence.
  - `Save` returns its lines; a failure to open the output file is not modelled.
- Record identity: the `shared_ptr` records are values here, so sharing of a record between callers after it is replaced is not captured.
- The destructor only clears the tables and is not modelled.
- `trim` and `split` come from a utilities file that is not part of this model.
  - `Trim` is taken to strip space, tab, newline, carriage return, vertical tab and form feed at both ends.
  - `Split` is taken to keep empty fields.
- Loading.ParseLine: a data line with fewer than five fields reads past the end of the field vector in the source, which is undefined behaviour. The model stops the load there with `MissingFields`.
- Loading.ParseLine: `std::stoul` is modelled as accepting only a non-empty run of decimal digits, because the model cannot capture its other behaviour:
  - it skips leading whitespace;
  - it accepts a sign and a trailing non-digit suffix ("12abc" reads as 12);
  - it throws on values beyond `unsigned long`.
  Narrowing to `uint16_t` is modelled as the value modulo 65536.
- RouteMapObject.RouteMap.GetKeys: states the keys as a duplicate-free sequence with the alias set as its contents, not in the order of the map, because the map type is declared in a header that is not part of this model, so its iteration order is unknown.
- RouteMapObject.RouteMap.Save: states the written lines as a set with their count, not their order, for the same reason.
- Saving.SaveThenReload: holds only when no saved alias or address contains a comma or a newline, and no saved alias starts with whitespace or '#'. `Save` ends each line with `std::endl` and `Read` splits the file with `getline`, so a newline inside a field would split one line into two. Other lines do not read back as written, and the source does not prevent them.
- Saving.SaveThenReloadOverCsv: has the same conditions as `Saving.SaveThenReload`.
- RouteMapObject.RouteMap.Update: requires the object invariant `Valid()`, which the constructor establishes and every method keeps.
