# Verified models of Archer's analysis core

Archer reads Zeek logs, detects beacons and other suspicious traffic, rolls its findings up,
and lets analysts search, redact, export and archive them. This project models the parts of it
whose correctness is hardest to see from one function at a time, and proves what they promise.

| part | files |
|---|---|
| Query language: lexer, parser, term parser, printing back, wildcard matching, list matching | `Text`, `Glob`, `Matcher`, `QueryTerm`, `QueryRange`, `QueryLexer`, `QueryParser`, `QueryGrammar`, `QueryPrint` |
| Redacting addresses and hosts before text leaves the host, and restoring them | `Decimal`, `Expand`, `Swallow`, `SwallowExact`, `Redact`, `ExpandExact`, `RedactExact`, `RedactJoint` |
| Moving aged logs into the archive, with failures and crashes at every step | `Archive` |
| Beacon state: reservoirs, lazy allocation with replay, intervals, ring, persistence | `Reservoir`, `Beacon`, `BeaconContents`, `BeaconLazy`, `Persistence`, `PersistenceHistory` |
| Order statistics and multimodal timing score | `Stats`, `Multimodal` |
| Findings, their identity and history key; text order as calendar order | `Finding`, `TextOrder`, `Calendar`, `IntOrder` |
| Same-pair correlation, multi-host staging, host risk | `Correlate`, `CorrelateRun`, `Staging`, `StagingRows`, `StagingOrder`, `Risk`, `RiskRollup` |
| Pause, resume, cancel and the file dispatcher | `Pause`, `Dispatch` |
| Threat-intelligence sweep | `ThreatIntel`, `ThreatIntelOrder`, `ThreatIntelRows` |

Code that updates an object is a class whose methods are proved against functions on values;
the lemmas are about those functions. Floating-point numbers are `real`. Text is a sequence of
characters; lower- and upper-casing are arbitrary character-by-character maps. Address parsing,
address ranges, the finding-type vocabulary, regular expressions and log2/exp are parameters with
the few facts that are needed. Where Go iterates a map or a worker pool picks the next item, the model
picks any order, so each result holds for every order.

Places where the code does less than the comments beside it say:

- A wildcard pattern can miss a candidate that itself contains a star, because the loop compares characters
  before it looks for a star (`internal/query/match.go:118-123`). `Glob.ExactIffNoStar` and `Glob.ExactIffStarless`
  show that it errs on exactly the candidates with a star, and for exactly the patterns with one.
- A correlation row can score below its loudest contributor when that one is above 99
  (`internal/analysis/correlate.go:225-236`); `CorrelationPass.RowBounds` states the true bound.
- `waitIfPaused` may let a file start after a cancellation (`internal/analysis/analyzer.go:343-348`);
  `Dispatch.StartsAfterCancelIff` says exactly when, and `Dispatch.AtMostOneAfterCancel` that it is one file at most.
- Expansion does not undo every redaction, although longer names go first (`internal/llm/redact.go:158-170`).
  A digit after a replaced value can make its token another one, and a token inside a replaced host name is lost
  when its turn comes before the host's; `RedactionJoint.RedactedRestoredIff` gives the condition for both at once.
- Keeping older logs can raise the persistence score of a pair first seen inside the scored window
  (`internal/analysis/conn.go:1415-1428`); `PersistenceHistory.OldPairsUnmoved` shows that no other pair moves and
  `PersistenceHistory.OlderHistoryIgnoredIff` says exactly when such a pair does not either.
- A range separator is found in the upper-cased copy and used to cut the original
  (`internal/query/term.go:194-202`); `QueryRange.AlwaysInBoundsIff` and `QueryRange.AlwaysCutsRightIff` say for
  which letters the cut is right.
- A staging row can depend on the order of findings that repeat a fingerprint
  (`internal/analysis/stage.go:74-119`); `StagingOrder.OnsetOrderFreeIff` says exactly when an onset does not.
- A negative timestamp makes the recorded time of a threat-intelligence hit depend on the workers
  (`internal/analysis/ti.go:430-440`); `ThreatIntelOrder.TimeIndependentOfOrderIff` says exactly when.

## Model

| member | source | states |
|---|---|---|
| Glob.GlobFold | internal/query/match.go:112-141 | the star-backtracking loop terminates; true implies a genuine match; when the text or the pattern is without a literal star it answers exactly the declarative meaning of the pattern |
| Glob.ScanSound | internal/query/match.go:117-140 | from every reachable configuration of the four indices, a true answer yields a match of the pattern part already read joined to the rest |
| Glob.ScanComplete | internal/query/match.go:123-136 | giving up an earlier star for a later one, or moving the mark on, never loses a match |
| Glob.Complete | internal/match/match.go:99-128 | every pattern that denotes a text is accepted when one of the two has no star |
| Glob.MissedDenotes | internal/query/match.go:118-123 | for every text with a star there is a pattern that denotes it and that the loop rejects |
| Glob.ExactIffNoStar | internal/query/match.go:118-123 | the loop is exact for all patterns on a text if and only if the text contains no star |
| Glob.ExactIffStarless | internal/query/match.go:118-123 | the loop is exact for a pattern on all texts if and only if the pattern contains no star |
| Glob.StringPatternMatch | internal/query/match.go:98-108 | a true answer means that some stretch of the text matches the pattern; when the text has no star, or the pattern no wildcard, a false one means that none does |
| Glob.WithinIsStarred | internal/query/match.go:98-106 | surrounding a pattern with stars means that some stretch of the text matches it |
| Glob.WithinIsSubstring | internal/query/match.go:98-108 | for a pattern without wildcards that is the substring test, so the two branches agree |
| ListMatcher.Matcher.Compile | internal/match/match.go:36-60 | the compiled matcher holds exactly the non-blank, non-comment entries, each in the tier its form selects |
| ListMatcher.Matcher.Matches | internal/match/match.go:62-94 | a candidate is covered if and only if some entry covers it by address, network or wildcard; the empty candidate never is |
| ListMatcher.OrderIrrelevant | internal/match/match.go:36-37 | lists with the same entries cover the same candidates in any order and multiplicity |
| ListMatcher.WildcardEntry | internal/match/match.go:47-50 | a wildcard entry accepts only texts its pattern denotes, and all of them when the text or the pattern contains no star |
| QueryTerm.ParseTerm | internal/query/term.go:67-128 | the step-by-step term parser agrees with the declarative reading of every text: field, alias, range, comparison, phrase, value and each error |
| QueryTerm.OtherwiseBare | internal/query/term.go:172-190 | a text that is not an identifier, a colon and a rest is read as a bare term, and one that begins with no comparison and is neither in brackets nor in quotes is searched for as it stands |
| QueryTerm.AddressWithPort | internal/query/term.go:175-190 | so 10.0.0.5:443 is a bare term, since its text up to the colon is no identifier |
| QueryTerm.TermRoundTrip | internal/query/term.go:67-128 | writing a well-formed term of any form and parsing it gives back the same term record |
| QueryTerm.AcceptedIsWritable | internal/query/term.go:67-128 | conversely every accepted term can be written: its field is known, its value allowed there, a comparison has an operand and a range two trimmed non-empty bounds |
| QueryTerm.RejectedBodies | internal/query/term.go:78-128 | a comparison without operand, a named field without value, brackets without a separator, and an unknown type or direction are each the error that says so |
| QueryTerm.RangeSplits | internal/query/term.go:192-206 | a range text splits at its separator into exactly the two bounds it was written from |
| QueryRange.InBoundsIff | internal/query/term.go:192-206 | the two slices of a range text lie within it if and only if upper-casing adds no more bytes before the separator than follow it |
| QueryRange.AlwaysInBoundsIff | internal/query/term.go:192-206 | every range text is cut within its bounds if and only if no letter takes more bytes as a capital |
| QueryRange.AlwaysCutsRightIff | internal/query/term.go:192-206 | every range text is cut where its separator is if and only if every letter takes as many bytes as its capital |
| QueryTerm.BareValueReadsBackIff | internal/query/term.go:172-190 | an unquoted bare value reads back as itself if and only if it is no range, comparison or phrase and nothing in front of a colon in it is an identifier |
| QueryTerm.NamedKeepsField | internal/query/term.go:67-76 | an accepted named term carries exactly the field its name resolves to, and that is a known one |
| QueryTerm.AliasReads | internal/query/term.go:25-50 | a term written with an alias reads as the one written with the field it stands for |
| QueryTerm.ArcherTables | internal/query/term.go:25-50 | the field and alias tables are consistent: all names are lower-case identifiers, aliases lead to known fields and known fields are not aliases |
| QueryTerm.ColonReadsAsField | internal/query/term.go:175-190 | a text that begins with an identifier and a colon is never a bare term: it carries the resolved field if that is known and is rejected otherwise |
| QueryTerm.Ipv6Addresses | internal/query/term.go:175-190 | the unquoted address fe80::1 is rejected as an unknown field, while ::1 is read as a bare term |
| QueryLexer.Lex | internal/query/query.go:103-183 | the cursor loop computes the declarative token sequence or the first unterminated group with its position |
| QueryLexer.LexWord | internal/query/query.go:128-176 | one term is copied up to the first break outside quotes and brackets |
| QueryLexer.LayoutReadsBack | internal/query/query.go:103-183 | any token sequence, spelled and spaced in any admissible way, lexes back to itself |
| QueryLexer.LexIff | internal/query/query.go:103-183 | a text lexes to a token sequence if and only if it is a layout of it, with AND, OR and NOT in any case standing for the operators and every other word for itself |
| QueryParser.Parser.ParseOr | internal/query/query.go:204-221 | consumes exactly what the disjunction function consumes and returns its tree or its error; never indexes past the end |
| QueryParser.Parser.ParseAnd | internal/query/query.go:223-253 | the same for conjunctions, including the error for a missing operator |
| QueryParser.Parser.ParseUnary | internal/query/query.go:267-280 | the same for negation |
| QueryParser.Parser.ParsePrimary | internal/query/query.go:282-307 | the same for groups and terms, including an unclosed group |
| QueryParser.Parse | internal/query/query.go:26-45 | blank input matches everything; otherwise lexing, parsing and the end-of-input check agree with their composition |
| QueryGrammar.ParseIffDerives | internal/query/query.go:185-307 | a token sequence parses to a tree if and only if the grammar derives that tree from all of it |
| QueryGrammar.QueryIffDenotes | internal/query/query.go:26-45 | a query text parses to a tree if and only if it is a layout of tokens from which the grammar derives that tree, or blank and the tree matches everything |
| QueryGrammar.Unambiguous | internal/query/query.go:185-307 | a token sequence has at most one derivation |
| QueryGrammar.AdjacentOperandsRejected | internal/query/query.go:223-253 | two operands side by side without an operator are never part of an accepted query |
| QueryGrammar.ExprMeans | internal/query/query.go:65-84 | evaluating the tree means: some disjunct all of whose conjuncts hold |
| QueryPrint.PrintParses | internal/query/query.go:204-307 | printing any tree with minimal parentheses, in any wording whose words read as its terms, and parsing the tokens gives the same tree |
| QueryPrint.MinimalE | internal/query/query.go:204-307 | no derivation of the same tree has fewer tokens than the printed one |
| QueryPrint.AnyLayoutReadsBack | internal/query/query.go:26-45 | every layout of a printed query, not only the single-spaced one, reads back to the same tree |
| QueryPrint.QueryRoundTrip | internal/query/query.go:26-45 | the text of any query written from the parts of its terms, inner spaces and unquoted comparisons such as score:>=90 included, parses back to that query |
| QueryPrint.WordedRoundTrip | internal/query/query.go:26-45 | the same for any wording that both the lexer and the term parser read back |
| QueryPrint.AcceptedQueryReprints | internal/query/query.go:26-45 | every accepted query text, whatever its terms hold, has a printed form with minimal parentheses that parses to the same tree and has no more tokens |
| Expansion.ReplaceStage | internal/llm/redact.go:160-170 | replacing one token's name puts the pieces of its value in its place everywhere and touches no other token, so the first token never damages the tenth |
| Expansion.Expand | internal/llm/redact.go:160-170 | the loop replaces the tokens one after another in the order the length sort gives |
| Expansion.ExpandSwaps | internal/llm/redact.go:160-170 | the whole loop, in any order with longer names first, puts pieces for tokens one number after another, tokens that earlier replacements bring in included |
| Expansion.ExpandRestores | internal/llm/redact.go:160-170 | for any number of tokens and any order of equal-length ones, expansion gives back the original text when no token is confusable with what follows it |
| Swallowing.SwallowedRestored | internal/llm/redact.go:160-170 | the same when values hold further tokens, if each of those is shorter than the token around it or reads the same after its turn |
| Redaction.TokenTable.Assign | internal/llm/redact.go:127-139 | a new value gets the next number, a known one its old token; the two maps stay inverse to each other |
| Redaction.TokenTable.Rewrite | internal/llm/redact.go:140-154 | one pass replaces exactly the matches that are to be hidden and keeps the rest of the text |
| Redaction.Redact | internal/llm/redact.go:126-156 | the two passes produce the redacted text and the token map of the declarative redaction |
| Redaction.RewrittenRenders | internal/llm/redact.go:140-154 | a pass's output is its text with, in place of each match it finds internal, that value's token, and everything else as it was |
| Redaction.NothingInternal | internal/llm/redact.go:140-146 | a pass that finds no match internal returns its text and the token map unchanged |
| Redaction.ExternalUntouched | internal/llm/redact.go:126-156 | a text in which neither pass finds a match internal leaves as it came, with an empty token map |
| Redaction.RedactedNests | internal/llm/redact.go:126-156 | the first pass's values are plain text, the second's are made of pieces of the first one's output; each second-pass token stands in the redacted text |
| Redaction.RedactedPictures | internal/llm/redact.go:126-156 | the redacted text is the original with tokens in place of the replaced values, tokens inside replaced host names included |
| Redaction.RoundTrip | internal/llm/redact.go:126-170 | expanding a redacted text restores it in every order of equal-length tokens, for texts without the token prefix, when no digit after a replaced value spells another token in use and every token inside a host name has fewer digits than the host's own (or reads the same after its turn) |
| Redaction.FewTokensSeparated | internal/llm/redact.go:48-54 | the digit condition holds with fewer than ten replaced values, and whenever no replaced value is directly followed by a digit |
| Redaction.TokenMapBijective | internal/llm/redact.go:126-143 | the token map is a bijection onto exactly the values that some pass cuts out as a match and finds internal |
| ExpansionExact.RestoredIffDigitsHarmless | internal/llm/redact.go:160-170 | for pieces whose literals spell no token start and in which no token runs into a value that begins with a digit, and seamless values that stay apart: they come back if and only if no digit straight after a token spells a longer token in use |
| RedactionExact.PrefixFreeApart | internal/llm/redact.go:160-170 | values none of which begins another stay apart |
| RedactionExact.RestoredIffNoDigitMerges | internal/llm/redact.go:126-170 | for a redacted text whose host names hold no tokens, with seamless values that stay apart and do not run into values that begin with a digit: expansion restores it if and only if no digit after a replaced value makes its token's number another one in use |
| RedactionJoint.RedactedRestoredIff | internal/llm/redact.go:126-170 | digits and swallowed tokens at once: the redacted text comes back in every order of equal-length tokens if and only if no digit after a replaced value makes its token's number another one in use and each token inside a host name has fewer digits than the host's own or reads the same after its turn |
| RedactionJoint.RestoredIffBothHarmless | internal/llm/redact.go:160-170 | the same for any pieces and nested values |
| Swallowing.RestoredInOrder | internal/llm/redact.go:160-170 | one given order restores the text when in it each token inside another comes after that one or reads the same after its turn |
| RedactionExact.DigitSpoilsRoundTrip | internal/llm/redact.go:126-170 | a text of ten internal addresses, the first directly followed by 0, that no order restores |
| ExpansionExact.ExpandIsReread | internal/llm/redact.go:160-170 | for seamless values, and no token followed by a value that begins with a digit, expansion expands the tokens as re-read greedily from the redacted text, whatever the digits spell |
| RedactionExact.RestoredInEveryOrderIff | internal/llm/redact.go:126-170 | for a redacted text whose host names may hold tokens, digits being harmless and no token directly following another: it comes back in every order of equal-length tokens if and only if each token inside a host name has fewer digits than the host's own, or stands for its decade's value followed by its last digit |
| RedactionExact.SwallowedTokenNeedsOrder | internal/llm/redact.go:126-170 | the text 10.0.0.1.corp comes back in one order of its two tokens and not in the other |
| RedactionExact.PiecesDetermined | internal/llm/redact.go:144-154 | when the host pass cuts the first pass's output between pieces, every replaced value has pieces, and no other cuts or pieces fit the same text |
| Archive.Disk.MoveFile | internal/server/archive.go:231-261 | on success the log is gone and its full content is in the archive; on any failure or crash nothing is lost |
| Archive.Disk.CopyChunks | internal/server/archive.go:248-252 | whatever was written before a failure is a prefix of the source |
| Archive.Disk.ArchiveFile | internal/server/archive.go:129-168 | one file is archived, skipped or left, with the counters to match; equal size implies equal bytes, so removing the source then loses nothing |
| Archive.Disk.RunArchive | internal/server/archive.go:82-168 | a whole run, dry or real, keeps every log's content at the source or in the archive and counts what it did |
| Archive.TotalsAdd | internal/server/archive.go:110-168 | the totals it reports add up log by log: each old enough log counts once, with its length, and no other counts |
| Archive.Disk.Runs | internal/server/archive.go:82-168 | the same over any history of days: each day some logs are rotated under unused names, then a run with that day's age test, dry or real, is finished or cut off between any two steps; every log ever rotated stays whole at its source or in the archive |
| Reservoir.ReservoirAdd | internal/analysis/conn.go:1311-1323 | append below the cap, else replace the drawn slot or drop, and count the item |
| Reservoir.BufferHoldsSample | internal/analysis/conn.go:1311-1323 | the buffer holds the stream values at the sampled positions, for every sequence of draws |
| Reservoir.SampleDistinct | internal/analysis/conn.go:1311-1323 | it holds min(n, cap) distinct stream positions |
| Reservoir.UnderCapKeepsAll | internal/analysis/conn.go:1311-1323 | up to the cap the buffer is the stream |
| Reservoir.ChoiceCount | internal/analysis/conn.go:16-18 | there are n!/c! sequences of draws |
| Reservoir.Unbiased | internal/analysis/conn.go:16-18 | every stream position survives in exactly c·(n-1)!/c! of them |
| BeaconSpec.IntervalsAreGaps | internal/analysis/conn.go:783-789 | for any order of arrival the intervals are the gaps between successive strict running maxima of the positive timestamps |
| BeaconSpec.MaximaRise | internal/analysis/conn.go:783-789 | those maxima are positive, strictly rising, and run from the first to the latest timestamp |
| BeaconSpec.IntervalsSum | internal/analysis/conn.go:783-789 | while the reservoir holds all of them the intervals are positive and sum to latest minus first timestamp |
| BeaconSpec.RingHoldsNewest | internal/analysis/conn.go:1363-1376 | the ring read from its head is the last min(n, cap) timestamps in arrival order |
| BeaconSpec.PortCounts | internal/analysis/conn.go:179-200 | the connections counted per port sum to the number of records |
| BeaconSpec.HourCounts | internal/analysis/conn.go:840-844 | each hour's count is the number of positive timestamps in it |
| BeaconSpec.MinMaxOfTimes | internal/analysis/conn.go:816-821 | the extremes are the least positive and the largest timestamp |
| BeaconContents.IntervalsSampled | internal/analysis/conn.go:830-836 | for streams of any length the interval buffer is the reservoir over all those gaps |
| BeaconContents.SizesSampled | internal/analysis/conn.go:837-839 | the size buffer is the reservoir over the positive sizes, in arrival order |
| BeaconContents.PointsSampled | internal/analysis/conn.go:840-841 | the chart buffer is the reservoir over the timed records |
| BeaconContents.FirstOnesKept | internal/analysis/conn.go:169-177 | the channel records and SNI candidates are the first ones up to their caps |
| BeaconContents.SumsAre | internal/analysis/conn.go:179-181 | the byte sums are over all records |
| BeaconContents.PortsAre | internal/analysis/conn.go:179-200 | each port's count, bytes and first and last time are those of the records on that port |
| BeaconLazy.BeaconState.Replay | internal/analysis/conn.go:764-799 | replaying one stashed record acts on samples, tracks and totals as the eager fold does, and on the first timestamp, connection and protocol as the step that lets an earlier record take over |
| BeaconLazy.OriginIsEarliest | internal/analysis/conn.go:764-799 | the first timestamp kept is the earliest positive one, with the connection and protocol of a record that carries it wherever they are known |
| BeaconLazy.BeaconState.Promote | internal/analysis/conn.go:744-815 | allocation, replay of the stash and the promoting record give the eager fold over all of them, and the origin that the stash and the record determine |
| BeaconLazy.BeaconState.Live | internal/analysis/conn.go:816-849 | a later record acts as the next step of the fold |
| BeaconLazy.SeedAbsorbed | internal/analysis/conn.go:747-782 | seeding the extremes with the promoting record's own timestamp leaves no trace |
| BeaconLazy.PromoteLast | internal/analysis/conn.go:736-849 | after the promoting record the state equals the fold in every field, SNI candidates included |
| BeaconLazy.ConnBeacons.Observe | internal/analysis/conn.go:736-849 | the books of stashes, counts and states are those of the whole log of records observed, in any interleaving of pairs |
| BeaconLazy.KeptUnlessFull | internal/analysis/conn.go:736-743 | a record is missing from what is kept only if it is among the first two of its pair, its pair is not stashed, and the stash is full of other pairs |
| BeaconLazy.NoneRefused | internal/analysis/conn.go:736-743 | while no more distinct pairs have been observed than the stash holds, everything observed is kept |
| BeaconLazy.ConnBeacons.StatesAreFolds | internal/analysis/conn.go:736-849 | a pair has a state exactly from its third record on, and that state is the eager fold over everything kept of the pair: over everything observed while the pairs fit in the stash |
| BeaconLazy.EarlyBalanced | internal/analysis/conn.go:736-743 | the books stay balanced through a stashed or refused early record |
| BeaconLazy.LaterBalanced | internal/analysis/conn.go:744-849 | the books stay balanced through a promoting or later record, and the replayed stash is all that was kept |
| Persistence.DurationScoreFromHourMap | internal/analysis/conn.go:1437-1501 | the array and counter loops compute the score from the set of occupied bins, in any map order |
| Persistence.BinIsSlice | internal/analysis/conn.go:1446-1458 | an hour of activity falls in a bin exactly when it lies in that twenty-fourth of the window, the outer bins also taking what lies before or after it |
| Persistence.LongestIsLongest | internal/analysis/conn.go:1478-1490 | the run counter ends at the length of the longest block of occupied bins |
| Persistence.InRange | internal/analysis/conn.go:1437-1501 | the score lies in [0, 1] for all inputs |
| Persistence.CoverageAdds | internal/analysis/conn.go:1468-1478 | cover adds up over adjoining spans, is positive for a positive span, and is one for the whole window |
| Persistence.CoverageClips | internal/analysis/conn.go:1468-1478 | time before the window covers nothing, and a pair seen over the whole window is covered once |
| Persistence.RetentionInvariant | internal/analysis/conn.go:1419-1444 | once the capture spans seven days, its start does not matter |
| Persistence.OlderActivity | internal/analysis/conn.go:1429-1475 | activity older than the window can only mark the first bin and never lowers the score, however old the pair is; a pair as old as the window whose first bin is occupied keeps its score |
| Persistence.OlderActivityIgnoredIff | internal/analysis/conn.go:1419-1462 | older activity and an earlier first time leave the score unchanged if and only if even the new bins are too few, or there were enough before and neither the new run nor the new cover beats both the run and the cover before |
| Persistence.FirstBinJoins | internal/analysis/conn.go:1478-1490 | occupying an empty first bin makes the longest run that of the block joined to it, if that is longer |
| PersistenceHistory.OldTimeOccupies | internal/analysis/conn.go:1446-1458 | a pair's own time at or before the window's start already occupies the first bin |
| PersistenceHistory.OldPairsUnmoved | internal/analysis/conn.go:1415-1428 | the score of a pair first seen at or before the window's start, from its own hour map and times, is the same however many older records are kept |
| PersistenceHistory.OlderHistoryIgnoredIff | internal/analysis/conn.go:976 | the score of any pair stays the same when records from before the window are added if and only if the first bin, once occupied, still leaves too few, or there were enough and neither the run then nor the span from the window's start beats both the run and the span before |
| PersistenceHistory.OlderLogCounts | internal/analysis/conn.go:976 | with the six bins every caller asks for, one older log with one connection lifts a pair of five connections inside the window from 0 to at least a half |
| Stats.QuartilesOrdered | internal/analysis/stats.go:62-64 | lower-half median, median and upper-half median are in order for every sample |
| Stats.BowleyBounded | internal/analysis/stats.go:53-73 | the Bowley score lies in [0, 1] and never divides by zero |
| Stats.BowleyIsSmallerShare | internal/analysis/stats.go:53-73 | with the quartiles apart the score is twice the share of the spread that the smaller half has; it is one for fewer than three samples, a narrow spread or a quartile on the median |
| Stats.MedianIsCentre | internal/analysis/stats.go:10-22 | the median is the middle element, or the mean of the two middle ones |
| Stats.HalvesMeet | internal/analysis/stats.go:53-73 | the halves take equally many elements from either end and leave out at most the centre |
| Stats.MadScore | internal/analysis/stats.go:76-99 | the deviation loop computes the clamped regularity score, in [0, 1] |
| Stats.MadShare | internal/analysis/stats.go:76-99 | on a positive sample the score times the median, and the median deviation, add up to the median |
| Stats.MadDefault | internal/analysis/stats.go:76-99 | an empty sample or a zero median has the score the caller gave |
| Stats.MadNeedsNoClamp | internal/analysis/stats.go:76-99 | on positive samples the deviation stays below the median, so the score is positive and no clamp fires |
| Stats.OrderStatistic | internal/analysis/stats.go:10-22 | the k-th smallest element is below a bound as soon as more than k elements are |
| Stats.ScoreBounded | internal/analysis/stats.go:101-107 | the combined score lies in [0, 1], within half a thousandth of the mean of its parts |
| Multimodal.FillBuckets | internal/analysis/stats.go:189-203 | each bucket holds the positive intervals of its octave, in order |
| Multimodal.BucketBounds | internal/analysis/stats.go:196-202 | an interval's bucket is the whole part of its binary logarithm, clamped at both ends |
| Multimodal.Octaves | internal/analysis/stats.go:196-202 | the first bucket ends at two seconds, the last begins at 2^17, and twice an interval is one bucket further |
| Multimodal.FindPeaks | internal/analysis/stats.go:219-237 | the peaks are all the maximal runs of adjacent buckets with at least half the largest count, in order |
| Multimodal.HalfIsEnough | internal/analysis/stats.go:214-230 | a bucket is part of a peak exactly when it is not empty and holds at least half as many as the fullest |
| Multimodal.UsableIff | internal/analysis/stats.go:246-278 | a peak is regular exactly when it holds two samples or more and their median deviation is at most half their median |
| Multimodal.IntervalMultimodalScore | internal/analysis/stats.go:185-284 | the score is zero or in [1/2, 1]; it is non-zero exactly for two to four such runs that are each regular, then equals their weighted tightness, and no sample is counted twice |
| Multimodal.BucketsConserve | internal/analysis/stats.go:189-203 | the buckets together hold each positive interval exactly as often as it was given, and nothing else |
| Findings.SameIdentityIff | internal/model/finding.go:478-492 | two findings share a fingerprint exactly when they agree on type, endpoints, port, sensor and channel and, being HTTP beacons, on host and path |
| Findings.HistoryKeyInjective | internal/model/finding.go:265-295 | history keys are equal exactly when the seven scrubbed fields and the optional channel agree |
| Findings.JoinInjective | internal/model/finding.go:265-285 | joining separator-free fields loses nothing, not even their number |
| Findings.HistoryKeyOnCleanFields | internal/model/finding.go:265-295 | on separator-free findings equal history keys imply equal fingerprints |
| TextOrder.LessTotal | internal/analysis/correlate.go:156-161 | of two different texts exactly one comes first |
| TextOrder.NotAfterTransitive | internal/analysis/correlate.go:156-161 | the text order used to pick the earliest timestamp is transitive |
| Calendar.TextOrderIsTime | internal/analysis/stage.go:207-219 | on the fixed timestamp layout text order is calendar order, leap years included, and different texts are different moments |
| Calendar.SecondsAre | internal/analysis/stage.go:207-219 | the seconds of the calendar scale in closed form: 365 days a year, the leap days before it by the Gregorian rule, the months before the day, and the time of day |
| Correlation.Gathered | internal/analysis/correlate.go:101-175 | the pair map holds exactly the types, fingerprints and first-seen ids of each pair's contributors |
| CorrelationPass.GatheredExtremes | internal/analysis/correlate.go:153-161 | the recorded score and time are the loudest contributor's and the earliest stamped one's |
| CorrelationPass.Analyzer.Correlate | internal/analysis/correlate.go:57-340 | exactly one row per pair with enough distinct types; every earlier finding ends with the sorted links to the other contributors and the row, or with none |
| CorrelationPass.EarnsRowIff | internal/analysis/correlate.go:29-175 | a pair earns a row if and only if the findings of both lists between its named endpoints show enough types that are no notice, long connection or roll-up |
| CorrelationPass.FewestTypesScore | internal/analysis/correlate.go:225-236 | a row of exactly as many types as asked for scores what its loudest contributor scores, up to 99 |
| CorrelationPass.FurtherTypeAddsFive | internal/analysis/correlate.go:225-236 | each further distinct type adds exactly five until the row reaches 99 |
| CorrelationPass.RowNamesContributors | internal/analysis/correlate.go:265-275 | a row has its contributors' endpoints and sensor, links the first finding of each fingerprint, and is a roll-up that contributes to nothing itself |
| CorrelationPass.Analyzer.Apply | internal/analysis/correlate.go:303-339 | the write-back replaces every list but those of the phase's own rows |
| CorrelationPass.Annotate | internal/analysis/correlate.go:286-300 | each contributor is linked to all the others and to the row, never to itself |
| CorrelationPass.LinkedFrom | internal/analysis/correlate.go:141-152 | a positive link id belongs to exactly one finding of this run: negated stored ids never collide with it |
| CorrelationPass.Mutual | internal/analysis/correlate.go:286-339 | two contributors of a pair refer to each other and to its row |
| CorrelationPass.RowBounds | internal/analysis/correlate.go:225-236 | a row scores between min(99, loudest contributor) and 99, so below a contributor if and only if that one is above 99; its time is at or before that of any stamped contributor |
| CorrelationPass.RowBelowItsBeacon | internal/analysis/correlate.go:225-236 | a beacon at 100 and one more type on its pair: the row reports 99 |
| CorrelationPass.RowsDistinctIff | internal/analysis/correlate.go:101-258 | the rows of a run have distinct fingerprints if and only if no pair earns one under a blank sensor and another under the default one |
| CorrelationPass.RepeatIsCleared | internal/analysis/correlate.go:141-152 | a second finding of this run with a seen fingerprint ends with no list |
| CorrelationPass.RollupsAreInert | internal/analysis/correlate.go:29-36 | roll-up rows of earlier runs change no pair |
| Staging.Collected | internal/analysis/stage.go:74-119 | the cluster table holds, per cluster, its hosts with their earliest onset and one id of this run each |
| StagingRows.ComputeStaging | internal/analysis/stage.go:121-205 | a row is emitted exactly for the clusters with enough hosts, few enough sources and onsets within the window, naming patient zero |
| StagingRows.StageCluster | internal/analysis/stage.go:135-204 | the decision and the row of one cluster |
| StagingRows.HostsBeacon | internal/analysis/stage.go:74-119 | the hosts that count for a cluster are the sources of all stamped beacon findings of its sensor towards its external destination: dropping repeated fingerprints loses none |
| StagingRows.RowIsNoEvidence | internal/analysis/stage.go:193-204 | a staging row is a roll-up and never evidence for another |
| StagingRows.OrderIrrelevant | internal/analysis/stage.go:74-205 | reordering the inputs changes no row except which of a host's ids is linked, when no list repeats a fingerprint |
| StagingOrder.OnsetOrderFreeIff | internal/analysis/stage.go:74-119 | with repeated fingerprints a host's onset is the same in every order of the findings if and only if some fingerprint carries the host's earliest time in every finding that can count for it, or the host has none |
| StagingOrder.SettledOrderFree | internal/analysis/stage.go:74-205 | a cluster whose hosts all meet that condition is staged in every order or in none, with the same row but for the linked ids |
| StagingRows.PatientZeroIsEarliest | internal/analysis/stage.go:148-160 | patient zero's time is the earliest calendar time of any counting finding of the cluster |
| StagingRows.WindowIsCalendarTime | internal/analysis/stage.go:155-160 | the window test compares calendar time between first and last onset |
| StagingRows.StagingCorroboration | internal/analysis/stage.go:221-241 | corroborated exactly when some related finding ties the participants or convicts the destination |
| StagingRows.CorroboratedIff | internal/analysis/stage.go:221-241 | that is a lateral hop between two participants under the same sensor, an indicator hit on either end, or a malicious client fingerprint towards the destination |
| Risk.DampingKeepsOrder | internal/analysis/risk.go:60-84 | damping is non-decreasing, the identity up to 75, between 75 and 99 above, and its final clamp never fires |
| Risk.DampedApproaches | internal/analysis/risk.go:60-84 | above 75 what is missing to 99 shrinks by the exponential of the excess over fifty, starting from the 24 between 75 and 99 |
| Risk.PointsGrow | internal/analysis/risk.go:196-214 | a type's points never fall when its best score or its number of destinations grows |
| Risk.PointsAtEnds | internal/analysis/risk.go:196-214 | one destination at the best score earns the weight, at no score half of it, two destinations half as much again, and the widest spread three times the weight |
| RiskRollup.TableTells | internal/analysis/risk.go:121-174 | the host map describes each host's set of evidence and nothing else |
| RiskRollup.AggregateRisk | internal/analysis/risk.go:86-259 | one row per host whose evidence earns points, with the damped sum over its types in any order |
| RiskRollup.RowIffScored | internal/analysis/risk.go:86-224 | a host has a row if and only if some finding of its own, with a real source and no roll-up, is of a scoring type with a score above zero |
| RiskRollup.RowIsNoEvidence | internal/analysis/risk.go:101-136 | a host risk row is a roll-up and never evidence for another |
| RiskRollup.OneTypeEarns | internal/analysis/risk.go:192-224 | with evidence of one type a host earns that type's points for its best score and its number of distinct destinations |
| RiskRollup.TypesAdd | internal/analysis/risk.go:192-224 | evidence of different types adds up |
| RiskRollup.RollupsNeverFeed | internal/analysis/risk.go:101-136 | adding earlier roll-up rows, repeating findings, storing them again under other ids or reordering them gives every host the same data and the same composite |
| RiskRollup.MoreEvidenceNeverLowers | internal/analysis/risk.go:192-224 | adding findings, whatever their ids and links, never lowers a host's score, and no score exceeds 99 |
| RiskRollup.EarliestEvidence | internal/analysis/risk.go:150-158 | a row's time is the earliest its host's evidence carries |
| PauseGate.Gate.Pause | internal/analysis/analyzer.go:300-311 | a running gate gets a new open channel, a paused one is left alone |
| PauseGate.Gate.Resume | internal/analysis/analyzer.go:313-323 | the current channel is closed if open and never twice |
| PauseGate.Gate.IsPaused | internal/analysis/analyzer.go:325-336 | paused exactly when the current channel is open |
| Dispatch.AlwaysOk | internal/analysis/analyzer.go:300-349 | in every reachable state the current channel is open exactly when paused, each superseded one is closed exactly once, and every dispatcher's files, semaphore and wait group agree |
| Dispatch.HeldOnlyWhilePaused | internal/analysis/analyzer.go:338-349 | a waiting dispatcher holds a closed channel or the current one of a paused gate |
| Dispatch.NoLostWakeup | internal/analysis/analyzer.go:313-349 | once resumed, the channel a waiter holds stays closed, however often the gate is paused again |
| Dispatch.WorkersBounded | internal/analysis/analyzer.go:904-947 | never more than the configured number of files in flight |
| Dispatch.ReturnedMeansFinished | internal/analysis/analyzer.go:904-947 | a returned dispatcher has finished a prefix of its list and started nothing else; only a cancellation leaves a rest |
| Dispatch.AtMostOneAfterCancel | internal/analysis/analyzer.go:907-947 | after a cancellation a dispatcher starts at most the one file it had taken up, and none from the head of its loop |
| Dispatch.StartsAfterCancelIff | internal/analysis/analyzer.go:907-947 | in a cancelled state some continuation starts another file if and only if the dispatcher stands between its loop test and handing that file over |
| Dispatch.OneMoreCanStart | internal/analysis/analyzer.go:343-348 | a run from the initial state that reaches such a state and starts one |
| Dispatch.AtMostOneWhilePaused | internal/analysis/analyzer.go:299-311 | while the gate stays paused a dispatcher starts at most the one file it was already let through for |
| Dispatch.MovesBounded | internal/analysis/analyzer.go:907-947 | a dispatcher and its workers take a bounded number of steps |
| Dispatch.NeverStuck | internal/analysis/analyzer.go:907-947 | until it returns a dispatcher can move, unless all it started is done and a pause holds it |
| ThreatIntel.Collector.Add | internal/analysis/ti.go:419-465 | one contact is recorded, counted, or ignored as the filter and the source demand |
| ThreatIntel.Collector.Scan | internal/analysis/ti.go:467-546 | workers taking the files' records in any interleaving record some ordering of exactly those contacts |
| ThreatIntelOrder.RecordedFacts | internal/analysis/ti.go:419-465 | a recorded count and label are the number of contacts and the label of the first log or of encrypted traffic; the time is the earliest positive one unless the first contact's is negative, which is kept |
| ThreatIntelOrder.TwoPhaseRefinesOnePhase | internal/analysis/ti.go:164-178 | on every hit target the targeted sweep records the sources, counts and labels that a sweep of everything would, and the times of every steady pair, whatever the two interleavings, and nothing on other targets |
| ThreatIntelOrder.TimeIndependentOfOrderIff | internal/analysis/ti.go:430-440 | the recorded time of a pair is the same in every order the log barriers allow if and only if the first log that saw it has no negative time of it, or one time only |
| ThreatIntelOrder.NegativeTimeDependsOnOrder | internal/analysis/ti.go:430-440 | two contacts, one with a negative time, whose recorded time depends on the order of arrival |
| ThreatIntelRows.SweepsAgree | internal/analysis/ti.go:202-258 | a destination the first sweep collects is the one the second attributes |
| ThreatIntelRows.SweptIff | internal/analysis/ti.go:202-258 | the first sweep collects exactly the targets of those contacts that are no ssl record, internal or infrastructure address, lookup of an address, or placeholder |
| ThreatIntelRows.HitsNameTargets | internal/analysis/ti.go:400-409 | parsing a hit's destination again gives back the kind it was collected under |
| ThreatIntelRows.TargetedSweep | internal/analysis/ti.go:411-592 | the logs are scanned one after another, so contacts are recorded log by log |
| ThreatIntelRows.MergeHits | internal/analysis/ti.go:611-625 | one entry per destination with the highest score and its severity |
| ThreatIntelRows.CheckTI | internal/analysis/ti.go:159-722 | over the records of all five logs: each named source of a record whose destination is a hit has its own finding, with as many contacts counted as there are such records; every finding tells of such records or is the placeholder of a hit nobody contacted; no pair occurs twice |
| ThreatIntelRows.RowsTell | internal/analysis/ti.go:467-722 | the same for any table recorded in any barriered order: a row's source is that of some record of the hit, its time, when none is negative, the earliest positive one, its port that of one of the first log to see it |
| ThreatIntelRows.ContactIs | internal/analysis/ti.go:467-592 | a record of any log is a contact of a source with a hit destination exactly when its destination field names that hit and its source is that source |
| ThreatIntelRows.FingerprintsDistinct | internal/analysis/ti.go:594-608 | no two emitted findings share a fingerprint |
| ThreatIntelRows.ContactsAreAttributed | internal/analysis/ti.go:639-675 | a contact by a named source with a hit destination is attributed, never left to the placeholder |

## Left out

- Field predicates of the query evaluator (numeric, time, direction, ATT&CK): the tree is evaluated over an arbitrary truth value for each term.
- QueryTerm.RangeSplits: reads the separator at the same offset in the upper-cased copy and the original; QueryRange says for which letters that is so, and how an outside slice would end the request is not modelled.
- Unicode case folding, multi-byte decoding and white-space classes: character maps and predicates are parameters.
- `net.ParseIP`, `net.ParseCIDR`, private and local address ranges: uninterpreted.
- The redactor's regular expressions: a pass is given the segmentation of its text into plain and matched parts.
- Which addresses and host names are internal (ranges and domain suffixes): a predicate of each pass.
- Redaction.RoundTrip: assumes that digits and swallowed tokens do no harm, conditions that RedactionExact and RedactionJoint show to be exact as far as listed below, and that the host pattern never cuts a token in two.
- RedactionExact.RestoredIffNoDigitMerges: leaves open texts in which a replaced value is directly followed, but for digits, by one that begins with a digit, values that complete the letters HOST_ at their ends, and pairs of values that make two texts begin alike; there the two readings can happen to agree.
- RedactionExact.RestoredInEveryOrderIff: its only-if half is for texts in which no token directly follows another; RoundTrip, the if half, needs no such condition.
- RedactionJoint.RedactedRestoredIff: leaves open host names in which a token ends the name or is followed by a digit that spells another token, next to what RestoredIffNoDigitMerges and RestoredInEveryOrderIff leave open; for those texts RoundTrip alone speaks.
- Archive.Disk.Runs: a crash is a step that stops the run, not a loss of data the file system has accepted but not flushed; pruning of empty directories, of findings, and telemetry are not modelled, and which files are old enough is a parameter.
- The HTTP beacon stash uses the same algorithm with its own fields; the model follows the connection one.
- BeaconLazy.ConnBeacons.Observe: timestamps are not negative, as zero stands for a missing one.
- PersistenceHistory.OlderHistoryIgnoredIff: compares the two scores over one window; by RetentionInvariant that is the window with and without the older logs whenever the capture spans seven days without them.
- The confidence modifier, the histogram scores and the modal-port summary of a beacon: one-expression or table lookups over the state modelled here.
- Spectral periodogram, entropy, bigram and coefficient-of-variation scores: they need logarithms, trigonometry or square roots.
- Floating-point rounding: all scores are computed over the reals; the binary logarithm of the multimodal score is exact on powers of two.
- Multimodal.IntervalMultimodalScore: the sample standard of each peak is its median deviation only, as in the source.
- The order in which rows are emitted (sorted keys) and the wording of detail texts and severities: rows are specified one by one, for any order.
- CorrelationPass.Analyzer.Correlate: requires the ids of this run to be positive and distinct and stored ids not to be negative, which the store's contract, not part of this model, provides.
- StagingRows.ComputeStaging: what the date parser makes of text outside the fixed layout is arbitrary, and time spans beyond what a Go duration holds are not modelled; splitting the store's findings into beacons and related ones is left out.
- RiskRollup.MoreEvidenceNeverLowers: exp and log2 are only assumed monotone, positive and normalised.
- ThreatIntelOrder.TwoPhaseRefinesOnePhase: port, query type and path come from the first contact recorded and so depend on the interleaving.
- Feed matching itself, OTX and AbuseIPDB lookups, and merging of evidence texts: the hits are any list of destinations.
- Panic recovery in a worker and the memory budget that sets the number of workers: a file's work always ends, and the number is a parameter.
- Suppression, dismissal, id translation in the store, HTTP handlers, sessions, exports and the UI.
