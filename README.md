# xspfgen and vtt2lrc in Dafny

This project models two small Python scripts.

`xspfgen.py` walks a directory tree twice. The first walk counts the audio files (`toal`). The second walk runs `ffprobe` on each audio file, in walk order. For each file it appends one XSPF `track` element to the playlist's `trackList`, with these children:

- `location`: `par.p + quote(path)`;
- `title`, `creator` and `album`: the `title`, `artist` and `album` tags;
- `trackNum`: the `track` tag, only when it exists;
- `duration`: in milliseconds.

After each track the script prints a progress line: a right-aligned counter `lm` characters wide, `/toal`, a ten-step bar of `#` followed by the units digit of the percentage, and two `format_time` fields.

The `__main__` block of `vtt2lrc.py` checks the structure of each `.vtt` file it finds:

- the text is cut into blocks at `"\n\n"`;
- the first block must start with `WEBVTT`;
- every later block other than `"\n"` is split into lines;
- a cue whose first line is only digits needs a second line, or the program calls `exit()`;
- the timing-line pattern is tested but its result is never used.

The files of the model:

- `pystr.dfy` (module `PyStr`): the Python string behaviour the scripts rely on, which is `str(n)`, `>`/`0` alignment, `c * n`, `startswith`, `endswith` and `split`.
- `seqs.dfy` (module `Seqs`): two sequence combinators the loops are built from, `FlatMap` (concatenate per-element results) and `TakeThrough` (map until the first stopping result), and small facts about concatenation.
- `progress.dfy` (module `Progress`): floor `divmod`, `format_time`, `lm` and the progress line.
- `urlquote.dfy` (module `UrlQuote`): UTF-8 encoding and `urllib.parse.quote` with `safe='/'`.
- `playlist.dfy` (module `Playlist`): the suffix filter, the counting walk, one track's children and the second walk as a method. The counting walk (`CountAudio`, `CountDirectory`) is proved against the number of audio paths, `|AudioPaths(...)|`. The probing walk (`ProbeFile`, `ProbeDirectory`, `ProbeWalk`) is proved against `RunOver`, the fold of `Step` over the files.
- `vtt_check.dfy` (module `VttCheck`): blocks, the header check, the `"\n"` filter, the cue loop and the loop over files.

Each file is probed in turn inside the walk loop (xspfgen.py:49-53).

## Model

| member | source | states |
|---|---|---|
| PyStr.AllDigits | vtt2lrc.py:35 | `re.fullmatch(r"\d*", line)`: every character is an ASCII digit, the empty line included; LoneBlock states its use |
| PyStr.IntStr | xspfgen.py:89-91 | `str(n)` is non-empty; it is all digits exactly when `n >= 0` and starts with `-` exactly when `n < 0` |
| PyStr.IntStrRoundTrip | xspfgen.py:89-91 | `str(n)` reads back as `n`, so the duration text determines the milliseconds |
| PyStr.NatStr | xspfgen.py:98 | the numeral of a natural number is made of digits and has no leading zero unless it is `0` |
| PyStr.NatStrValue | xspfgen.py:98 | the numeral of `n` has value `n` |
| PyStr.NatStrLength | xspfgen.py:44 | a positive `n` has `w` digits exactly when `10^(w-1) <= n < 10^w` |
| PyStr.NatStrLengthMonotone | xspfgen.py:98 | a larger number never has a shorter numeral |
| PyStr.LeadingZerosValue | xspfgen.py:23 | the zero padding of `{second:02d}` does not change the value of the numeral |
| PyStr.Repeat | xspfgen.py:99 | `c * n` has `max(n, 0)` characters, all equal to `c` |
| PyStr.RepeatFront | xspfgen.py:23 | a repeated padding can be peeled from the front as well as the back |
| PyStr.PadLeft | xspfgen.py:23 | `{s:>w}` is `max(|s|, w)` characters and never truncates |
| PyStr.PadLeftShape | xspfgen.py:23 | the padded text ends with the original text, and every character in front of it is the fill character |
| PyStr.StartsWith | vtt2lrc.py:25 | `startswith(prefix)`: the text is at least as long as the prefix and begins with it; Header states its use |
| PyStr.EndsWith | xspfgen.py:41 | `endswith(suffix)`: the text is at least as long as the suffix and ends with it; SuffixCaseMatters states its use |
| PyStr.FindFrom | vtt2lrc.py:23 | the leftmost occurrence of the separator at or after a position, or none at all |
| PyStr.Split | vtt2lrc.py:23 | `split` always yields at least one piece |
| PyStr.SplitJoin | vtt2lrc.py:23 | joining the pieces of a split with the separator gives back the text |
| PyStr.SplitPiecesFree | vtt2lrc.py:23 | no piece of a split contains the separator |
| PyStr.SplitLeftmost | vtt2lrc.py:23 | every cut is at the leftmost occurrence: in each piece but the last, followed by the separator, the separator first occurs right after the piece |
| Seqs.FlatMapAppend | xspfgen.py:39-42 | the files of consecutive walk segments concatenate |
| Seqs.FlatMapStep | xspfgen.py:39-40 | one more directory adds its files at the end |
| Seqs.TakeThrough | vtt2lrc.py:32-42 | the loop handles at most as many items as there are |
| Seqs.TakeThroughShape | vtt2lrc.py:32-42 | a stopping loop handles a prefix of the items, each by its own result; only the last handled may stop; it falls short only because the last one stopped |
| Seqs.TakeThroughFrom | vtt2lrc.py:32-42 | the loop from position `k` on is that item's result, then the rest unless it stopped |
| Progress.FloorDiv | xspfgen.py:95 | Python's `//` for a positive divisor, rounding toward minus infinity; FloorDivSpec states it |
| Progress.DivMod | xspfgen.py:22 | `divmod(a, b)` for a positive divisor as the floor quotient and the remainder; DivModSpec states it |
| Progress.FloorDivSpec | xspfgen.py:95 | `a // b` is the largest multiple of `b` not above `a`, for negative `a` too |
| Progress.DivModSpec | xspfgen.py:22 | `divmod(a, b)` recomposes `a`, with the remainder in `0..b-1` |
| Progress.FormatTime | xspfgen.py:21-23 | `format_time(seconds)`: `divmod(seconds, 60)`, then the clock text; the round trip and width lemmas below state what it promises |
| Progress.Clock | xspfgen.py:23 | `f"{minute:>2}min {second:02d}s"`; ClockFields, SecondsField, MinuteField, ClockRoundTrip and ClockWidth state it |
| Progress.FormatTimeSplit | xspfgen.py:22 | `format_time` splits any argument into minutes and seconds `0..59` that recompose it |
| Progress.FormatTimeRoundTrip | xspfgen.py:21-23 | the text of `format_time(s)` reads back as `s`, for every integer `s` |
| Progress.ClockRoundTrip | xspfgen.py:23 | the `f"{minute:>2}min {second:02d}s"` text reads back as `minute * 60 + second` |
| Progress.ClockFields | xspfgen.py:23 | the clock text is the right-aligned minute field, which reads back as the minute count, then `min `, then two digits whose value is the second count, then `s` |
| Progress.SecondsField | xspfgen.py:23 | `{second:02d}` for a second in `0..59` is two digits whose value is the second |
| Progress.MinuteField | xspfgen.py:23 | `{minute:>2}` is at least two characters and, without its leading spaces, reads back as the minute |
| Progress.FormatTimeWidth | xspfgen.py:21-23 | the text is the minute field (at least 2 wide) plus 7 characters, so exactly 9 for `0 <= s < 6000` |
| Progress.ClockWidth | xspfgen.py:23 | the clock text is the padded minute field plus 7 characters |
| Progress.DigitWidth | xspfgen.py:44 | `lm = int(log10(toal) + 1)` is the digit count of `toal`, `10^(lm-1) <= toal < 10^lm`; `toal == 0` is the math domain error |
| Progress.CounterWidth | xspfgen.py:98 | `f"{i:>{lm}}"` is exactly `lm` wide for every `1 <= i <= toal` |
| Progress.Percent | xspfgen.py:95 | `(i * 100) // toal`; PercentBounds and PercentMonotone state it |
| Progress.BarDigits | xspfgen.py:95 | `shiwei, gewei = divmod(percent, 10)`; BarDigitsBounds states it |
| Progress.BarField | xspfgen.py:99-101 | `"#" * shiwei`, the digit `gewei`, then `" " * (9 - shiwei)`; BarFieldWidth states it |
| Progress.ProgressLine | xspfgen.py:97-102 | the counter `f"  {i:>{lm}}/{toal} |"`, the bar and `"| "`, up to the timing fields; ProgressLineWidth states it |
| Progress.PercentBounds | xspfgen.py:95 | `(i * 100) // toal` is in `0..100` and is 100 exactly at `i == toal` |
| Progress.PercentMonotone | xspfgen.py:94-95 | the percentage never falls as `i` grows |
| Progress.BarDigitsBounds | xspfgen.py:95 | `shiwei` is in `0..10` and `gewei` in `0..9`; together they recompose the percentage; `shiwei` is 10 only at `i == toal` |
| Progress.BarFieldWidth | xspfgen.py:95-101 | the bar is 10 characters wide before the last track and `##########0`, 11 wide, at the last |
| Progress.ProgressLineWidth | xspfgen.py:97-102 | every progress line is `2 * lm + 17` characters up to the timing fields, the last one `2 * lm + 18` |
| Progress.ProgressLines | xspfgen.py:94-108 | one progress line is printed per track |
| Progress.ProgressLinesAt | xspfgen.py:94-108 | the `k`-th line printed is the line of track `k + 1` |
| Progress.ProgressLinesSnoc | xspfgen.py:94-108 | the line of track `n + 1` follows the lines of tracks `1..n` |
| UrlQuote.Utf8 | xspfgen.py:73 | a character encodes to 1 to 4 bytes, and to one byte exactly when it is ASCII |
| UrlQuote.Utf8Encode | xspfgen.py:73 | the UTF-8 encoding of a text, character by character, that `quote` applies first; Utf8RoundTrip and Utf8Ascii state it |
| UrlQuote.Utf8RoundTrip | xspfgen.py:73 | the bytes of one encoded character give back its code point |
| UrlQuote.Utf8Ascii | xspfgen.py:73 | an ASCII text is encoded byte for byte |
| UrlQuote.QuoteByte | xspfgen.py:73 | one byte as `quote_from_bytes` writes it; QuoteByteForm and QuoteByteDecodes state it |
| UrlQuote.QuoteBytes | xspfgen.py:73 | `quote_from_bytes` over a byte string, which `quote` applies to the UTF-8 bytes; QuoteBytesAppend, QuoteBytesAt, QuoteBytesRoundTrip and QuoteAlphabet state it |
| UrlQuote.QuoteByteDecodes | xspfgen.py:73 | one quoted byte decodes to that byte in front of whatever follows |
| UrlQuote.QuoteBytesRoundTrip | xspfgen.py:73 | percent-decoding undoes the quoting of any byte string |
| UrlQuote.QuoteByteForm | xspfgen.py:73 | a safe byte is written as its own character; any other byte as `%` and two upper-case hexadecimal digits whose value is the byte |
| UrlQuote.QuoteBytesAppend | xspfgen.py:73 | quoting works byte by byte: the quoted form of a concatenation is the concatenation of the quoted forms |
| UrlQuote.QuoteBytesAt | xspfgen.py:73 | each byte is quoted in place by its own quoted form, whatever surrounds it, so a safe byte inside a mixed path is kept |
| UrlQuote.QuoteSpace | xspfgen.py:73 | `quote("a b")` is `a%20b` |
| UrlQuote.Quote | xspfgen.py:73 | `quote(path)`: the UTF-8 bytes, each kept when it is a letter, digit, one of `_.-~` or `/`, else written `%XX`; QuoteByteForm, QuoteBytesAppend, QuoteBytesAt, QuoteRoundTrip, QuoteAlphabet and QuoteKeepsSafe state it |
| UrlQuote.QuoteRoundTrip | xspfgen.py:73 | `quote(path)` decodes to the UTF-8 bytes of the path |
| UrlQuote.QuoteAlphabet | xspfgen.py:73 | quoted text holds only safe characters, `%` and upper-case hexadecimal digits |
| UrlQuote.QuoteKeepsSafe | xspfgen.py:73 | a path made only of safe characters and `/` is left unchanged |
| Playlist.IsAudio | xspfgen.py:41 | `file.endswith(audio_format)` over the seven suffixes of line 18; SuffixCaseMatters states it |
| Playlist.JoinPath | xspfgen.py:52 | `supdir / file` in POSIX form; AudioPathsMembers uses it for the listed paths |
| Playlist.SuffixCaseMatters | xspfgen.py:41 | `endswith(audio_format)` is case-sensitive: `song.mp3` is a track, `song.MP3` is not |
| Playlist.AllFiles | xspfgen.py:49-50 | every file of the walk, directory by directory and in each directory in listed order, as the nested `for` loops meet them; AllFilesSplit states it |
| Playlist.AudioPaths | xspfgen.py:49-52 | the paths `supdir / file` of the audio files, in walk order, that the second walk probes; AudioPathsCount and AudioPathsMembers state it |
| Playlist.AudioPathsCount | xspfgen.py:39-42 | the number of listed paths is the number of audio files in the walk |
| Playlist.AudioPathsMembers | xspfgen.py:49-52 | a path is listed exactly when some audio file of the walk has it |
| Playlist.CountAudio | xspfgen.py:39-42 | the first walk ends with `toal` equal to the number of audio files |
| Playlist.CountDirectory | xspfgen.py:40-42 | one directory adds its audio files to `toal` |
| Playlist.LocationText | xspfgen.py:73 | the location starts with `par.p`, and its remainder decodes to the UTF-8 bytes of the path |
| Playlist.TrackRecord | xspfgen.py:71-91 | the children of one track, or the exception raised at the first missing key or bad duration; TrackRecordOk, TrackRecordErr, TrackRecordShape and TrackNumPresence state it |
| Playlist.Record | xspfgen.py:71-91 | the probe output of a path turned into a track whose location is `par.p + quote(path)` |
| Playlist.TrackRecordOk | xspfgen.py:71-91 | a track is produced exactly when the output has `format` and `tags`, the tags hold `title`, `artist` and `album`, and the duration is numeric |
| Playlist.TrackRecordErr | xspfgen.py:71-91 | a bad probe output raises the exception of the first failing step: `JSONDecodeError`, then `KeyError` for `format`, `tags`, `title`, `artist`, `album` and `duration` in that order, then `ValueError` or `OverflowError` from the duration conversion |
| Playlist.TrackRecordShape | xspfgen.py:72-91 | the children are location, title, creator, album, optional trackNum and duration, in that order, carrying the location, the tag values and the milliseconds |
| Playlist.TrackNumPresence | xspfgen.py:83-88 | `trackNum` is present exactly when the `track` tag is |
| Playlist.BuildTrack | xspfgen.py:71-91 | building the track child by child yields the record of the probe output, or the exception raised at the first missing key |
| Playlist.Tracks | xspfgen.py:49-91 | the track list over the audio paths in order, or the exception of the first path whose record fails; the lemmas below state it |
| Playlist.TracksOk | xspfgen.py:49-91 | a finished track list has one track per audio path, each the record of its own path, in walk order |
| Playlist.TracksErr | xspfgen.py:49-91 | the run fails exactly when some audio path's record fails |
| Playlist.TracksFirstFailure | xspfgen.py:49-91 | a failed run fails with the exception of its first failing path |
| Playlist.TracksErrSticks | xspfgen.py:49-91 | once the run has failed, later paths change nothing |
| Playlist.TracksStep | xspfgen.py:50-91 | one more path appends its track or ends the run with its exception |
| Playlist.Step | xspfgen.py:50-108 | the inner loop body: skip a non-audio file or a stopped run, else probe, append the track, increment `i` and print a line, or stop with the exception; StepMeaning states it |
| Playlist.RunOver | xspfgen.py:49-108 | the second walk as the fold of `Step` over the files; RunOverMeaning states it |
| Playlist.RunOverAppend | xspfgen.py:49-50 | walking two parts of the file list in turn is walking the whole list |
| Playlist.RunOverStopped | xspfgen.py:71-91 | after an exception no further file is probed |
| Playlist.RunOverMeaning | xspfgen.py:49-108 | after any prefix of the walk, the state holds the paths probed, the tracks, `i`, one progress line per track, and the exception that ended the walk |
| Playlist.StepMeaning | xspfgen.py:50-108 | each file keeps that explanation, adding its own path when it is an audio file |
| Playlist.ProbeFile | xspfgen.py:51-108 | handling one file in place is one `Step` |
| Playlist.ProbeDirectory | xspfgen.py:50-108 | the inner loop over one directory is the fold of `Step` over its files, leaving early on an exception |
| Playlist.ProbeWalk | xspfgen.py:49-108 | the outer loop is the fold of `Step` over all files of the walk |
| Playlist.Outcome | xspfgen.py:49-108 | what `main` ends with: the exception that stopped the walk, else the track list; OutcomeMeaning states it |
| Playlist.OutcomeMeaning | xspfgen.py:49-108 | the run's outcome is the track list of the audio paths; when it succeeds, `i` is their number |
| Playlist.Generate | xspfgen.py:26-108 | `main` computes `toal` and either the math domain error, or the track list and `i`; the two agree when both walks see the same tree |
| Playlist.AllFilesSplit | xspfgen.py:49-50 | a walk's files split around any directory |
| VttCheck.SkipDigits | vtt2lrc.py:35 | a `\d*` run takes exactly the digits in front of it |
| VttCheck.StampMatch | vtt2lrc.py:38 | a full match of the stamp `\d*:\d*:\d*\.\d*`; StampMatchShape and StampNotArrow state it |
| VttCheck.TimingLine | vtt2lrc.py:37-43 | a full match of the timing pattern: a stamp, the ` --> ` look-ahead, and a stamp from the same position to the end; TimingNeverMatches states it is always false |
| VttCheck.StampMatchShape | vtt2lrc.py:38 | `\d*:\d*:\d*\.\d*` matches exactly four digit runs separated by `:`, `:` and `.` |
| VttCheck.StampNotArrow | vtt2lrc.py:38 | no stamp starts with the space of ` --> ` |
| VttCheck.TimingNeverMatches | vtt2lrc.py:37-43 | the timing pattern matches no line, because the look-ahead needs a space where the second stamp must start |
| VttCheck.Blocks | vtt2lrc.py:23 | splitting always yields a first block, and the blocks joined with `"\n\n"` give back the text |
| VttCheck.Header | vtt2lrc.py:24-30 | the "empty file" message is never printed; the syntax message is printed exactly when the first block does not start with `WEBVTT` |
| VttCheck.Kept | vtt2lrc.py:31 | the filter never adds blocks |
| VttCheck.KeptMultiset | vtt2lrc.py:31 | exactly the blocks equal to `"\n"` are dropped; every other block is kept as often as it occurs |
| VttCheck.KeptAppend | vtt2lrc.py:31 | the filter keeps order |
| VttCheck.KeptMember | vtt2lrc.py:31 | a block is kept exactly when it occurs and is not `"\n"` |
| VttCheck.Lines | vtt2lrc.py:31 | a block always has at least one line; no line holds a newline; joined with `"\n"` the lines give back the block |
| VttCheck.CueGroup | vtt2lrc.py:31 | `cuegroup` has one cue per kept block, in order; each cue has a first line and joins back into its block |
| VttCheck.Classify | vtt2lrc.py:34-44 | a cue's kind from its first line and, after a digits-only first line, its second; LoneBlock and TimingIrrelevant state it |
| VttCheck.Kinds | vtt2lrc.py:32-42 | the loop over `cuegroup`, classifying each cue up to the first lone identifier; KindsShape and KindsLone state it |
| VttCheck.Verdict | vtt2lrc.py:23-46 | one file's header message, the kinds of the cues of its `cuegroup` handled, and whether it exits; ExitIff states it |
| VttCheck.KindsShape | vtt2lrc.py:32-42 | the loop handles a prefix of the cues, each classified by its lines; only the last may exit; it stops short only at an exit |
| VttCheck.KindsLone | vtt2lrc.py:32-42 | the loop exits exactly when some cue is a lone digits-only line |
| VttCheck.LoneBlock | vtt2lrc.py:33-42 | a block makes the program exit exactly when it is only digits, the empty block included |
| VttCheck.ExitIff | vtt2lrc.py:22-42 | the program exits on a file exactly when some block after the first is only digits, whatever the header check printed |
| VttCheck.TimingIrrelevant | vtt2lrc.py:35-44 | no handled cue is classed as timed |
| VttCheck.EmptyText | vtt2lrc.py:23-31 | an empty file gets the syntax message, not the "empty file" message, and has no cues |
| VttCheck.BlankLineAfterHeaderExits | vtt2lrc.py:23-42 | `WEBVTT` followed by one blank line makes the program exit |
| VttCheck.ThirdNewlineStaysInCue | vtt2lrc.py:23-42 | `"WEBVTT\n\n\n1"` splits at its first two newlines into `WEBVTT` and `"\n1"`, so the program does not exit |
| VttCheck.CheckCue | vtt2lrc.py:33-46 | reading one cue's lines gives its classification |
| VttCheck.CheckFile | vtt2lrc.py:23-46 | checking one file gives its header message, its cue kinds and whether it exits |
| VttCheck.CheckCues | vtt2lrc.py:32-46 | the cue loop yields the kinds of the cues up to the first exit |
| VttCheck.Reports | vtt2lrc.py:21-46 | the reports of the files in glob order, up to and including the first file that exits; ReportsShape states it |
| VttCheck.ReportsShape | vtt2lrc.py:21-42 | files are read in order, one report each; every file before the last read was left normally; the loop stops short only after an exit |
| VttCheck.CheckFiles | vtt2lrc.py:21-46 | the loop over the files yields the reports up to the first exit |

## Left out

- Argument parsing, the XML tree (`ET.Element`, `ET.indent`, writing or dumping the file) and the terminal escape codes are not modelled. The track is the ordered list of its child elements and their texts.
- The directory walk is a parameter: one `WalkStep` per directory, in the order `Path.walk()` yields them. Path joining follows `pathlib` only for a `.` directory and a trailing `/`.
- The `ffprobe` subprocess and the JSON decoding are a parameter `probe` from a path to what `json.loads(p.stdout)["format"]` yields.
- `int(float(duration) * 1000)` is not modelled: floating point. The probe output carries either the milliseconds, a missing key, a text that `float` refuses or reads as NaN (`ValueError`), or a text that reads as an infinity or overflows once multiplied by 1000 (`OverflowError`).
- `quote` raises `UnicodeEncodeError` on a file name that holds a lone surrogate (how `pathlib` keeps undecodable bytes). Dafny's `char` holds only Unicode scalar values, so such names cannot be expressed and this error is not modelled.
- The clock (`time.time()`) and the two timing fields of each progress line, including the remaining-time estimate `(now - start) * (toal / i - 1)`, are left out. A progress line is modelled up to those fields; `format_time` itself is modelled.
- Playlist.Generate: does not raise the `NameError` of the final `format_time(now - start)` print. When `toal > 0` but the second walk finds no audio file, `now` is never bound (xspfgen.py:96), and that print raises `NameError` after the empty playlist is written; `Generate` returns `Ok([])` there. The print itself is left out because it depends on the clock.
- Progress.DigitWidth: `int(log10(toal) + 1)` is modelled as the exact digit count. Floating-point rounding of `log10` from 10^15 - 2 on is not captured.
- Progress.DivMod: covers positive divisors only, since every use divides by 60, by 10 or by `toal > 0`.
- Progress.Percent: requires `toal > 0`, since a run with `toal == 0` has already stopped at `log10(0)`.
- VttCheck.SkipDigits: `\d` is modelled as the ASCII digits. Python's `re` also accepts other Unicode decimal digits in `str` patterns.
- Finding the `.vtt` files with `Path().glob(args.s)`, reading them, and the commented-out LRC conversion are not modelled. The loop over files takes the texts of the files in glob order.
- `print` output of the header check is modelled as the message that would be printed. The `StopIteration` branch is modelled, and proved unreachable.
