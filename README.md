# TV show and channel store — a Dafny model

This project models the record store of a small console program that keeps
TV shows and TV channels. The program holds two global vectors, `programs`
and `channels`. It loads them from the text files `Program.txt` and
`Channel.txt` when it starts, and changes them through add, delete and edit
operations. After each change it appends to those files or rewrites them.
It also answers a few queries:

- the shows on a given day, sorted by start time;
- the longest and the shortest shows;
- the average duration in a category;
- a per-channel count of shows.

The model is split by concern:

- `records.dfy` (`Records`): the `show` and `channel` records as datatypes, and the store invariants:
  - unique show names;
  - unique channel names and codes;
  - show names free of spaces;
  - every show refers to an existing channel.
- `text.dfy` (`Text`):
  - `encode`/`decode`, which swap space and underscore;
  - the C `isspace`/`tolower` character classes.
- `numbers.dfy` (`Numbers`):
  - `std::stoi` (leading whitespace, optional sign, longest digit run, no digit means failure);
  - `>>` into an `int`;
  - `to_string`, zero-padded hours and minutes, `substr`.
- `persistence.dfy` (`Persistence`):
  - the one-record-per-line file format;
  - the whitespace tokeniser behind `stringstream >>`;
  - the loader's per-line parse;
  - the serialise/parse round trips.
- `rules.dfy` (`Rules`): each mutating operation as a pure decision function:
  - what it refuses and why;
  - what record it builds;
  - the next channel code.

  Lemmas state which store invariants each operation keeps, and which it does not.
- `queries.dfy` (`Queries`): the read-only queries as functions, with their properties.
- `store.dfy` (`TvStore`): class `Store`.
  - Its `seq` fields are the two collections and the lines of the two files.
  - Its methods are the operations and the loader. Each is a loop or a step-by-step check, proved equal to the decision or query function it implements.
  - `InSync()` says that each file holds exactly the lines of its collection. Every operation that writes a file keeps it.

The program's quirks are modelled as written:

- A start time without a colon is accepted and stored as 00:00.
- `editShow` stores the day of week unencoded.
- `editShow` compares a new name against the raw, unencoded `name` argument. So renaming a show whose name has a space to its own name is refused.
- An edit that fails part way keeps the fields it has already assigned.
- `editChannel` runs the duplicate-name check even for a blank name.
- `maxShow` starts from 0. If every duration is negative, it selects nothing.

The edit operations take a patch in place of the console prompts. Each patch field is the line that would be typed, and a blank line keeps the current value.

## Model

| member | source | states |
|---|---|---|
| Text.Encode | tvmodule.cpp:24-28 | same length, no space in the result, and each character is the input's with space turned into underscore |
| Text.Decode | tvmodule.cpp:30-34 | same length, no underscore in the result, and each character is the input's with underscore turned into space |
| Text.DecodeEncode | tvmodule.cpp:24-34 | decoding an encoded string gives it back when it holds no underscore |
| Text.EncodeDecode | tvmodule.cpp:24-34 | encoding a decoded string gives it back when it holds no space |
| Text.EncodeSpaceFree | tvmodule.cpp:24-28 | encoding leaves a space-free string unchanged |
| Text.EncodeNoWhitespace | tvmodule.cpp:24-28 | a string whose only whitespace is plain spaces encodes to one word |
| Text.EncodeIsLossy | tvmodule.cpp:24-34 | "a b" and "a_b" encode alike, so the second does not decode back to itself |
| Text.EncodeText | tvmodule.cpp:24-28 | the character loop computes `Encode` |
| Text.DecodeText | tvmodule.cpp:30-34 | the character loop computes `Decode` |
| Text.ToLower | tvmodule.cpp:577-583 | `tolower` applied to each character: same length, only A-Z change |
| Numbers.NatToString | tvmodule.cpp:65 | `to_string` of a natural number is "0" for zero, and otherwise a non-empty digit string with no leading zero |
| Numbers.IntToString | tvmodule.cpp:65 | `to_string` of any `int` is one non-empty word (no whitespace); `stoi` and `>>` read it back (StoiOfIntToString, ReadIntOfIntToString) |
| Numbers.Stoi | tvmodule.cpp:203-204 | `stoi` succeeds exactly when, after leading whitespace and one optional sign, at least one digit follows; the value read is stated by StoiOfShape for every input that has a value |
| Numbers.ReadInt | main.cpp:20 | the model's reading of a whole token as an `int`: it succeeds exactly when the token is an optional sign followed by one or more digits (the stream's own rule for a token with trailing text is under "## Left out") |
| Numbers.DigitsValueOfNatToString | tvmodule.cpp:65 | the digits `to_string` writes have the value written |
| Numbers.StoiOfIntToString | tvmodule.cpp:55 | `stoi` reads back what `to_string` writes, sign included |
| Numbers.ReadIntOfIntToString | main.cpp:20 | `>>` into an `int` reads back what `<<` of that `int` writes |
| Numbers.TwoDigitsRoundTrip | tvmodule.cpp:288-289 | a zero-padded hour or minute below 100 is two digits that `stoi` reads back |
| Numbers.StoiRejectsNonNumeric | main.cpp:21-22 | `stoi` fails on text that starts with something other than whitespace, a sign or a digit |
| Numbers.StoiOfShape | tvmodule.cpp:203-204 | `stoi` of leading whitespace, an optional '+' or '-', a run of digits and then anything that does not start with a digit is the digits' value, negated after '-' |
| Numbers.StoiReadsDigitPrefix | tvmodule.cpp:203-204 | `stoi` reads the leading digits and ignores what follows them |
| Numbers.Substr | main.cpp:21-22 | `substr(pos, len)` succeeds exactly when `pos` is within the string, and then yields the `len` characters from `pos`, or all that remain when fewer do |
| Persistence.Tokens | main.cpp:19-20 | every word the tokeniser produces is non-empty and holds no whitespace |
| Persistence.TokensOfBlank | main.cpp:19-20 | a line of whitespace only has no words |
| Persistence.TokensOfWord | main.cpp:19-20 | the first word of a line is the text after leading whitespace up to the next whitespace, and the rest of the words are those of what follows |
| Persistence.TokensOfJoin | tvmodule.cpp:290 | the words of a line written as words separated by single spaces are those words |
| Persistence.ShowLines | tvmodule.cpp:286-291 | the rewritten show file has one line per show, in store order, each that show's line |
| Persistence.ChannelLines | tvmodule.cpp:312-315 | the rewritten channel file has one line per channel, in store order |
| Persistence.AppendMatchesRewrite | tvmodule.cpp:228-232 | appending a show's line to the file gives the file a rewrite of the grown collection would give |
| Persistence.AppendChannelMatchesRewrite | tvmodule.cpp:261-262 | appending a channel's line gives the file a rewrite would give |
| Persistence.ParseChannelLine | main.cpp:31-32 | code, name and country read from a channel line are each one word |
| Persistence.ShowFromWordsFields | main.cpp:19-22 | a line's words make a show exactly when the time word gives an hour (characters 0-1) and a minute (characters 3-4) and the fourth word is a whole integer; the fields are the words in order, a missing word empty |
| Persistence.ShowLineWords | tvmodule.cpp:288-290 | a well-formed show's line splits into exactly its six fields: name, category, HH:MM, duration, day, code |
| Persistence.ChannelLineWords | tvmodule.cpp:314 | a well-formed channel's line splits into exactly code, name and country |
| Persistence.ParseShowLines | main.cpp:16-24 | reading the show file fails only at a line that does not read; otherwise one record per line, in file order |
| Persistence.ParseShowLinesFailsAt | main.cpp:21-22 | one unreadable show line makes the whole load fail |
| Persistence.ParseChannelLines | main.cpp:29-34 | one channel per line, in file order |
| Persistence.TimeTextIsWord | tvmodule.cpp:288-289 | the written time is one five-character word |
| Persistence.TimeTextReadBack | main.cpp:21-22 | characters 0-1 and 3-4 of the written time read back as hour and minute |
| Persistence.ShowFromOwnWords | main.cpp:20-22 | the six words of a well-formed show build that show back |
| Persistence.ShowLineRoundTrip | tvmodule.cpp:288-290 | writing a well-formed show and reading its line gives the same show |
| Persistence.ChannelLineRoundTrip | tvmodule.cpp:314 | writing a well-formed channel and reading its line gives the same channel |
| Persistence.ShowFileRoundTrip | main.cpp:16-24 | a rewritten show file of well-formed shows reloads to the same collection, in order |
| Persistence.ChannelFileRoundTrip | main.cpp:29-34 | a rewritten channel file of well-formed channels reloads to the same collection |
| Persistence.NonNumericTimeFails | main.cpp:21 | a time word that does not start with a digit or sign makes the line fail to load |
| Persistence.ShortTimeFails | main.cpp:22 | a time word shorter than three characters makes the line fail to load, as `substr(3, 2)` throws |
| Persistence.JoinSplitField | tvmodule.cpp:290 | a field with a space in it is written exactly like two fields |
| Persistence.SpacedDayNotReadBack | tvmodule.cpp:426-429 | a show whose day holds a space, as an edit may store it, does not read back as itself |
| Rules.IndexOf | tvmodule.cpp:200 | `find(':')` gives the first occurrence or none |
| Rules.ReadClock | tvmodule.cpp:199-204 | the time text has no colon exactly when it is read as "no colon"; what the colon forms read as is stated by ReadClockOfParts |
| Rules.ReadClockOfParts | tvmodule.cpp:200-204 | for text with a first colon, `stoi` reads the part before it as the hour and the part after it as the minute; if either throws, the time is malformed |
| Rules.ReadClockOfTimeText | tvmodule.cpp:199-204 | the zero-padded "HH:MM" the store writes reads back as the same hour and minute |
| Rules.ReadClockUnpadded | tvmodule.cpp:199-204 | padding is optional: "9:5" and "9:05" both read as hour 9, minute 5; signs and out-of-range values are read too, and left to the range check |
| Rules.AddShowRefusals | tvmodule.cpp:179-214 | AddShowDecision refuses for a missing field, then for an existing encoded name, then for an unknown channel code, then for a time whose colon sides `stoi` cannot read (format error), then for an hour outside 0-23 or a minute outside 0-59; each exactly when that check is the first to fail |
| Rules.AddShowAccepted | tvmodule.cpp:199-225 | a show AddShowDecision accepts has the encoded fields, the typed duration (positive), a name no show has and an existing channel; its clock is the typed hour and minute when the text has a colon, and 00:00 when it has none |
| Rules.AddShowKeepsInvariants | tvmodule.cpp:188-225 | appending an accepted show keeps names unique and space-free and references valid |
| Rules.AddedShowReadsBack | tvmodule.cpp:217-232 | an added show typed without underscores is written, read back and decoded to what was typed |
| Rules.MaxParsed | tvmodule.cpp:50-61 | the running maximum from 0 is at least every code read and is 0 or one of them |
| Rules.NextChannelCode | tvmodule.cpp:49-66 | the generated code is a non-empty digit string (its value: NextChannelCodeValue) |
| Rules.NextChannelCodeValue | tvmodule.cpp:49-66 | the code reads as one more than the largest code `stoi` can read, or as 1 when none can be read: above every readable code, and one more than one of them unless it is 1 |
| Rules.NextChannelCodeExample | tvmodule.cpp:49-66 | codes "3", "x" and "7" give the code "8": the unreadable one is skipped |
| Rules.NextChannelCodeFresh | tvmodule.cpp:49-66 | the next code differs from every existing code |
| Rules.AddChannelDecision | tvmodule.cpp:238-258 | addChannel refuses exactly for a missing field, or for an existing encoded name; otherwise the record carries the encoded name and country and the code generateNextChannelId gives, and neither the name nor the code is taken |
| Rules.AddChannelKeepsInvariants | tvmodule.cpp:247-258 | appending an accepted channel keeps channel names and codes unique |
| Rules.AppendedChannelKeepsReferences | tvmodule.cpp:258 | appending a channel keeps every show's channel reference valid |
| Rules.AddChannelTwiceFails | tvmodule.cpp:247-250 | adding the same channel name again is refused as a duplicate |
| Rules.WithoutShow | tvmodule.cpp:274-277 | the shows `remove_if`/`erase` keep are never more than before; which and in what order: WithoutShowMembers, WithoutShowShrinks, WithoutShowConcat |
| Rules.WithoutChannel | tvmodule.cpp:300-303 | the channels kept are never more than before; which and in what order: WithoutChannelMembers, WithoutChannelShrinks, WithoutChannelConcat |
| Rules.WithoutShowMembers | tvmodule.cpp:274-277 | `remove_if`/`erase` keep exactly the shows whose name is not the encoded name |
| Rules.WithoutShowShrinks | tvmodule.cpp:275-281 | a show is removed exactly when some show has the name; with none, nothing changes |
| Rules.WithoutShowConcat | tvmodule.cpp:275 | removal keeps the relative order of the shows kept |
| Rules.WithoutChannelMembers | tvmodule.cpp:300-303 | exactly the channels whose name is not the encoded name are kept |
| Rules.WithoutChannelShrinks | tvmodule.cpp:301-307 | a channel is removed exactly when some channel has the name; with none, nothing changes |
| Rules.WithoutChannelConcat | tvmodule.cpp:301 | removal keeps the relative order of the channels kept |
| Rules.DeleteShowKeepsUniqueNames | tvmodule.cpp:274-277 | deleting shows keeps show names unique |
| Rules.DeleteShowKeepsReferences | tvmodule.cpp:274-277 | deleting shows keeps names space-free and references valid |
| Rules.DeleteChannelKeepsUniqueNames | tvmodule.cpp:300-303 | deleting channels keeps channel names unique |
| Rules.DeleteChannelKeepsUniqueCodes | tvmodule.cpp:300-303 | deleting channels keeps channel codes unique |
| Rules.DeleteChannelCanOrphanShows | tvmodule.cpp:294-316 | deleting a channel does not touch shows, so a show can be left referring to no channel |
| Rules.FindShow | tvmodule.cpp:325-326 | `find_if` gives the first show with the name, or none when no show has it |
| Rules.FindChannel | tvmodule.cpp:481-482 | `find_if` gives the first channel with the name, or none |
| Rules.EditClock | tvmodule.cpp:368-399 | a start time whose colon sides `stoi` reads as an hour in 0-23 and a minute in 0-59 replaces the clock; any other text, an out-of-range time, a format error or text without a colon, keeps the old clock and every other field |
| Rules.EditDuration | tvmodule.cpp:401-417 | a line `stoi` reads as a positive number replaces the duration; a blank line, an unreadable one or a value of 0 or less keeps the record as it was |
| Rules.EditShowRecord | tvmodule.cpp:334-454 | a name taken by another show (compared against the raw name) refuses with no change; an unknown channel code stops the edit with the earlier fields already changed; otherwise name and category are replaced encoded, the day unencoded, the code when it exists; a valid clock and a positive duration stay so (the clock and duration values: EditShowTimes) |
| Rules.EditShowTimes | tvmodule.cpp:368-420 | unless the name check refused, the edited show ends with the clock and duration the time and duration steps give the found show |
| Rules.EditShowKeepsUniqueNames | tvmodule.cpp:334-354 | editing the found show keeps names unique and space-free when they were so before |
| Rules.EditShowKeepsReferences | tvmodule.cpp:432-454 | editing a show keeps every channel reference valid |
| Rules.EditShowSelfRenameRefused | tvmodule.cpp:347-351 | renaming a show whose name has a space to that same name is refused |
| Rules.EditShowNoRollback | tvmodule.cpp:356-366 | an unknown channel code leaves the category already changed |
| Rules.EditChannelRecord | tvmodule.cpp:489-521 | the code never changes; a name taken by another channel refuses with no change; otherwise the typed name and country replace the old ones, encoded |
| Rules.EditChannelKeepsInvariants | tvmodule.cpp:489-521 | editing a channel keeps channel names and codes unique |
| Rules.EditChannelKeepsReferences | tvmodule.cpp:474-537 | editing a channel keeps every show's channel reference valid |
| Rules.EditChannelBlankNameRefused | tvmodule.cpp:489-497 | a blank name line is refused when some channel has an empty name |
| Queries.OnDay | tvmodule.cpp:581-588 | the selection is never longer than the store; which shows and how often: OnDayMembers, OnDayConcat, OnDayOne |
| Queries.OnDayMembers | tvmodule.cpp:581-588 | the selection holds exactly the shows whose lowered day equals the lowered query, none more often than the store |
| Queries.OnDayConcat | tvmodule.cpp:581-588 | the selection keeps store order and every repetition: it distributes over concatenation |
| Queries.OnDayOne | tvmodule.cpp:583-587 | one show is selected exactly when its lowered day equals the lowered query |
| Queries.OnDayIgnoresCase | tvmodule.cpp:577-583 | the query ignores case: a day and its lower-case form select the same shows |
| Queries.InsertByStart | tvmodule.cpp:596-601 | inserting into a list sorted by (hour, minute) keeps it sorted and adds exactly that show |
| Queries.MaxDuration | tvmodule.cpp:670-678 | the running maximum from 0 is at least every duration and is 0 or one of them |
| Queries.MinDuration | tvmodule.cpp:760-768 | the running minimum from INT_MAX is at most every duration and is INT_MAX or one of them |
| Queries.WithDuration | tvmodule.cpp:681-685 | the shows kept are exactly those of the given duration |
| Queries.LongestShows | tvmodule.cpp:670-685 | every show selected is at least as long as every show, and every show of the maximum is selected |
| Queries.LongestShowsNonEmpty | tvmodule.cpp:670-685 | with a show of non-negative duration, something is selected |
| Queries.LongestShowsAllNegative | tvmodule.cpp:670 | with only negative durations, nothing is selected |
| Queries.ShortestShows | tvmodule.cpp:760-775 | every show selected is at most as long as every show, and every show of the minimum is selected |
| Queries.ShortestShowsNonEmpty | tvmodule.cpp:760-775 | with any show of duration up to INT_MAX, something is selected |
| Queries.WithDurationConcat | tvmodule.cpp:681-685 | the selection keeps store order |
| Queries.CategoryTotals | tvmodule.cpp:845-851 | the count is at most the number of shows, zero exactly when no show has the category, and at most the sum when durations are positive |
| Queries.CategoryTotalsBounds | tvmodule.cpp:845-855 | the sum lies between count times the least and count times the greatest duration, so the average lies between them |
| Queries.CategoryTotalsConcat | tvmodule.cpp:845-851 | the sum and the count of two runs of shows are the sums of their sums and counts |
| Queries.CategoryTotalsOne | tvmodule.cpp:846-849 | one show adds its duration and 1 when its category is the encoded one, and nothing otherwise |
| Queries.CategoryTotalsExample | tvmodule.cpp:844-857 | News 30, Sports 60, News 50 give News a sum of 80 over 2 shows, an average of 40 |
| Queries.FirstWithCode | tvmodule.cpp:556-560 | the inner loop's `break` stops at the first channel with the show's code, or at none |
| Queries.LexLessIrreflexive | tvmodule.cpp:551 | `std::string` `<` is irreflexive |
| Queries.LexLessTransitive | tvmodule.cpp:551 | `std::string` `<` is transitive |
| Queries.LexLessTotal | tvmodule.cpp:551 | two different strings are ordered one way or the other |
| Queries.Bump | tvmodule.cpp:558 | `channelCounts[name]++` keeps the keys strictly sorted and adds no name but `name` |
| Queries.BumpCounts | tvmodule.cpp:558 | it adds one to `name`'s count, leaves every other count alone and adds one to the total |
| Queries.Tally | tvmodule.cpp:551-562 | the map's keys are sorted, each a channel name with a count of at least 1 |
| Queries.TallyCounts | tvmodule.cpp:554-562 | each name's count is the number of shows counted under it, and the total is the number of shows with a known channel, at most the number of shows |
| Queries.SummaryLines | tvmodule.cpp:565-567 | one "name count" line per key, in key order |
| TvStore.Store.constructor | tvmodule.cpp:12-13 | the collections start empty over the given file contents |
| TvStore.Store.Load | main.cpp:13-35 | loading gives the file's shows in order and then its channels; an unreadable show line stops the load there, before any channel, with the shows before it loaded; the line at the reported position is one that does not read as a show |
| TvStore.Store.GenerateNextChannelId | tvmodule.cpp:49-66 | the loop computes the next channel code of the store |
| TvStore.Store.AddShow | tvmodule.cpp:178-236 | the outcome is addShow's decision; an accepted show is appended to the collection and its line to the file, a refusal changes nothing, and the file stays in sync |
| TvStore.Store.AddChannel | tvmodule.cpp:238-266 | the outcome is addChannel's decision; an accepted channel is appended in memory and on file, a refusal changes nothing, and the file stays in sync |
| TvStore.Store.DeleteShow | tvmodule.cpp:268-292 | a blank name is refused; otherwise the shows with the encoded name go, the file is rewritten from what is left, and "removed" is reported exactly when some show had the name |
| TvStore.Store.DeleteChannel | tvmodule.cpp:294-316 | the same for channels |
| TvStore.Store.EditShow | tvmodule.cpp:318-472 | a blank name is refused; an unknown name changes nothing; otherwise only the first show with the name changes, as editShow's steps say, and the file is rewritten only when the edit ran to the end |
| TvStore.Store.EditChannel | tvmodule.cpp:474-537 | a blank name is refused; an unknown name changes nothing; otherwise only the first channel with the name changes, and the file is rewritten unless the new name was taken |
| TvStore.Store.BroadcastSummary | tvmodule.cpp:539-571 | nothing when there is no channel or no show; otherwise the summary lines of the tally |
| TvStore.Store.SpecificDayShow | tvmodule.cpp:573-601 | the result is sorted by start time and is a permutation of the shows on that day |
| TvStore.Store.MaxShow | tvmodule.cpp:664-685 | nothing when there are no shows; otherwise the maximum duration and the shows that have it, in store order |
| TvStore.Store.MinShow | tvmodule.cpp:754-775 | nothing when there are no shows; otherwise the minimum duration and the shows that have it, in store order |
| TvStore.Store.AverageShow | tvmodule.cpp:844-852 | the sum and count of the durations in the encoded category; the count is 0 exactly when no show has it |
| TvStore.SelectDay | tvmodule.cpp:577-588 | the selection loop computes the shows on that day, in store order |
| TvStore.SortByStart | tvmodule.cpp:596-601 | the result is sorted by (hour, minute) and is a permutation of its input |
| TvStore.CountShows | tvmodule.cpp:554-562 | the nested loops compute the tally |
| TvStore.FormatSummary | tvmodule.cpp:565-567 | the output loop writes the summary lines |
| TvStore.NextCodeAfter | tvmodule.cpp:50-65 | the loop over the channels computes the next channel code |
| TvStore.CheckNewShow | tvmodule.cpp:179-224 | addShow's checks, taken in order, compute its decision |
| TvStore.CheckNewChannel | tvmodule.cpp:239-257 | addChannel's checks, taken in order, compute its decision |
| TvStore.EditFields | tvmodule.cpp:334-454 | editShow's field-by-field steps compute its edit |
| TvStore.EditChannelFields | tvmodule.cpp:489-521 | editChannel's steps compute its edit |
| TvStore.ReadShows | main.cpp:16-24 | the show loop loads every line, or stops at the first unreadable one with the shows before it |
| TvStore.ReadChannels | main.cpp:29-34 | the channel loop loads one channel per line, in order |
| TvStore.RenderShows | tvmodule.cpp:286-291 | the rewrite loop writes the show file's lines |
| TvStore.RenderChannels | tvmodule.cpp:312-315 | the rewrite loop writes the channel file's lines |
| TvStore.RemoveShows | tvmodule.cpp:274-277 | the removal keeps exactly the shows without the name, in order |
| TvStore.RemoveChannels | tvmodule.cpp:300-303 | the removal keeps exactly the channels without the name, in order |

## Left out

- Console output, the `cout` messages and the menu (`showMenu`, `clearScreen`) are not modelled. The outcome datatypes (`AddError`, `Removal`, `EditResult`, `EditOutcome`) stand for the messages.
- The `getline` prompts of `editShow`/`editChannel` are replaced by a patch argument. The path where `editShow` is called with explicit non-blank arguments is not modelled. The menu never takes that path, and on it a non-zero `newDuration` is stored without a positivity check.
- File I/O is modelled as the lines of each file, held in the store: opening, closing, `fileExists` and `createFileIfNotExists` are left out. The "File not found. Cannot update." early returns are left out as well; the model always rewrites the file.
- `broadcastSummary` writes `BroadcastSummary.txt`. The model returns that file's lines instead.
- The `setw` table printing in `allShows`, `allChannels`, `specificDayShow`, `maxShow` and `minShow` is left out. It only presents results.
- `averageShow`'s division into a `double` is not modelled; the model stops at the integer sum and count, and the bounds lemma covers the average.
- Numbers.Stoi: `out_of_range` is not modelled. Integers are unbounded, so an overlong digit run is read as its full value.
- Numbers.ReadInt: `>>` into an `int` reads the longest signed digit prefix of the input and leaves the rest in the stream, so it reads `12abc` as 12 and then `abc` as the next token. On a token with no digits, it stores 0 and sets the fail state. The model reads whole tokens only and treats both cases as unreadable.
- Text is modelled as sequences of characters, while `std::string` holds bytes. So on text outside ASCII, the byte counts of `substr` (main.cpp:21-22) and the per-byte `::tolower` (tvmodule.cpp:578, 583) are not modelled.
- Overflow of `int` is not modelled: integers are unbounded. This affects `maxId + 1` in generateNextChannelId and `sum` in averageShow.
- Persistence.ShowFromWords: a show line whose duration word is missing or is not a whole integer makes the model's load stop at that line. The program loads such a line instead. With the word missing, the duration is left unset. With a word like `abc`, `>>` stores 0 and leaves the day and code empty. With a word like `12abc`, it stores 12, takes `abc` as the day and the next word as the code. None of this is modelled.
- WithoutShow: its own contract bounds only the length; which shows it keeps, how often and in what order is stated by WithoutShowMembers, WithoutShowShrinks and WithoutShowConcat, kept apart to keep the solver's work small.
- WithoutChannel: as WithoutShow, with WithoutChannelMembers, WithoutChannelShrinks and WithoutChannelConcat.
- OnDay: its own contract bounds only the length; the selected shows are stated by OnDayMembers, OnDayConcat and OnDayOne.
- EditShowRecord: the final clock and duration are stated by the lemma EditShowTimes, not in its own contract, because stating them there makes the function too costly to verify.
- TvStore.Store.SpecificDayShow: `ranges::sort` is not stable. The contract states sortedness and permutation only, which is all the sort promises. The insertion sort used to meet it is a stand-in for the library sort.
- TvStore.Store.AddShow, TvStore.Store.AddChannel, TvStore.Store.DeleteShow, TvStore.Store.DeleteChannel, TvStore.Store.EditShow, TvStore.Store.EditChannel: these promise the new state and file sync. The store invariants (unique names and codes, valid references) are proved about the decision functions by the `Rules` lemmas, not repeated as method postconditions.
- TvStore.Store.GenerateNextChannelId: its contract ties the code to `NextChannelCode`; freshness is the separate lemma `Rules.NextChannelCodeFresh`.
- The declarations in `tvmodule.h` that do not match the definitions are not modelled. These are `addChannel` with a code parameter, `editChannel` with `newCode`, and `averageShow` with no argument. The model follows the definitions in `tvmodule.cpp`.
