/** xspfgen.py's `main`: two walks over the directory tree, the first
    counting audio files (`toal`), the second probing each audio file in
    walk order and appending one `track` element per file to the
    playlist's `trackList`, with a progress line after each track.

    The directory walk is a parameter (one `WalkStep` per directory, in the
    order `Path.walk()` yields them); the `ffprobe` call and its JSON
    decoding are a parameter too, `probe`, which gives for a path what the
    script finds in `json.loads(p.stdout)["format"]`. */
module Playlist {
  import opened PyStr
  import opened Seqs
  import opened Progress
  import UrlQuote

  // ---------------------------------------------------------------------
  // Which files are tracks
  // ---------------------------------------------------------------------

  /** `audio_format`, compared case-sensitively by `str.endswith`. */
  const AudioSuffixes: seq<string> := [".mp3", ".flac", ".ogg", ".m4a", ".ape", ".acc", ".wav"]

  /** `file.endswith(audio_format)`. */
  predicate IsAudio(name: string) {
    exists k :: 0 <= k < |AudioSuffixes| && EndsWith(name, AudioSuffixes[k])
  }

  /** The comparison is case-sensitive: `.MP3` is not a track, `.mp3` is. */
  lemma SuffixCaseMatters()
    ensures !IsAudio("song.MP3")
    ensures IsAudio("song.mp3")
  {
    assert EndsWith("song.mp3", AudioSuffixes[0]);
    forall k | 0 <= k < |AudioSuffixes| ensures !EndsWith("song.MP3", AudioSuffixes[k]) {
      var s := AudioSuffixes[k];
      assert |s| <= 5;
      var tail := "song.MP3"[|"song.MP3"| - |s|..];
      if s == ".mp3" {
        assert tail[1] == 'M' != s[1];
      } else {
        assert tail[|s| - 1] == '3' != s[|s| - 1];
      }
    }
  }

  /** One directory as `Path.walk()` yields it: its path in POSIX form and
      the names of the files in it (sub-directories are further steps). */
  datatype WalkStep = WalkStep(dir: string, files: seq<string>)

  /** One file met during a walk. */
  datatype Entry = Entry(dir: string, name: string)

  /** `(supdir / file).as_posix()`: pathlib drops a `.` directory and does
      not double a trailing `/`. */
  function JoinPath(dir: string, name: string): string {
    if dir == "." then name
    else if EndsWith(dir, "/") then dir + name
    else dir + "/" + name
  }

  function Entries(step: WalkStep): (es: seq<Entry>)
    ensures |es| == |step.files|
  {
    seq(|step.files|, k requires 0 <= k < |step.files| => Entry(step.dir, step.files[k]))
  }

  /** Every file of a walk, in the order the nested `for` loops meet them. */
  function AllFiles(walk: seq<WalkStep>): seq<Entry> {
    FlatMap(walk, Entries)
  }

  /** The path of `e` when it names an audio file; nothing otherwise. */
  function TrackPath(e: Entry): seq<string> {
    if IsAudio(e.name) then [JoinPath(e.dir, e.name)] else []
  }

  /** The paths of the audio files among `es`, in order. */
  function AudioPaths(es: seq<Entry>): seq<string> {
    FlatMap(es, TrackPath)
  }

  /** The positions of the audio files among `es`. */
  function AudioIndices(es: seq<Entry>): set<nat> {
    set k: nat | k < |es| && IsAudio(es[k].name)
  }

  /** `toal` counts the audio names of a walk: one path per audio file. */
  lemma {:induction false} AudioPathsCount(es: seq<Entry>)
    ensures |AudioPaths(es)| == |AudioIndices(es)|
    decreases |es|
  {
    if es != [] {
      var n := |es| - 1;
      var e := es[n];
      AudioPathsCount(es[..n]);
      var extra: set<nat> := if IsAudio(e.name) then {n} else {};
      AudioIndicesLast(es, es[..n]);
      assert n !in AudioIndices(es[..n]);
      assert AudioIndices(es[..n]) * extra == {};
      assert AudioPaths(es) == AudioPaths(es[..n]) + TrackPath(e);
    }
  }

  /** The audio positions of `es` are those of all but the last, and the
      last when it is an audio file. */
  lemma AudioIndicesLast(es: seq<Entry>, init: seq<Entry>)
    requires es != [] && init == es[..|es| - 1]
    ensures AudioIndices(es) == AudioIndices(init) + (if IsAudio(es[|init|].name) then {|init|} else {})
  {
    var n := |init|;
    var extra: set<nat> := if IsAudio(es[n].name) then {n} else {};
    forall k: nat | k in AudioIndices(es) ensures k in AudioIndices(init) + extra {
      if k < n {
        assert init[k] == es[k];
      }
    }
    forall k: nat | k in AudioIndices(init) ensures k in AudioIndices(es) {
      assert init[k] == es[k];
    }
  }

  /** The audio file at position `k` of `es` has path `p`. */
  predicate AudioAt(es: seq<Entry>, k: int, p: string) {
    0 <= k < |es| && IsAudio(es[k].name) && p == JoinPath(es[k].dir, es[k].name)
  }

  /** A path is listed exactly when it names an audio file of the walk. */
  lemma {:induction false} AudioPathsMembers(es: seq<Entry>, p: string)
    ensures p in AudioPaths(es) <==> exists k :: AudioAt(es, k, p)
    decreases |es|
  {
    if es != [] {
      var n := |es| - 1;
      var e := es[n];
      AudioPathsMembers(es[..n], p);
      AudioAtLast(es, es[..n], p);
      assert AudioPaths(es) == AudioPaths(es[..n]) + TrackPath(e);
      assert p in TrackPath(e) <==> AudioAt(es, n, p);
    }
  }

  /** An audio file of `es` is one of all but the last, or the last. */
  lemma AudioAtLast(es: seq<Entry>, init: seq<Entry>, p: string)
    requires es != [] && init == es[..|es| - 1]
    ensures (exists k :: AudioAt(es, k, p)) <==>
            (exists k :: AudioAt(init, k, p)) || AudioAt(es, |init|, p)
  {
    forall k | AudioAt(init, k, p) ensures AudioAt(es, k, p) {
      assert init[k] == es[k];
    }
    forall k | AudioAt(es, k, p) && k < |init| ensures AudioAt(init, k, p) {
      assert init[k] == es[k];
    }
  }

  /** The first walk of `main`: `toal` is incremented once per audio name. */
  method CountAudio(walk: seq<WalkStep>) returns (toal: nat)
    ensures toal == |AudioPaths(AllFiles(walk))|
  {
    toal := 0;
    var w := 0;
    while w < |walk|
      invariant 0 <= w <= |walk|
      invariant toal == |AudioPaths(AllFiles(walk[..w]))|
    {
      toal := CountDirectory(walk[w], toal);
      AllFilesStep(walk, w);
      FlatMapAppend(AllFiles(walk[..w]), Entries(walk[w]), TrackPath);
      w := w + 1;
    }
    assert walk[..w] == walk;
  }

  /** The inner loop of the first walk, over one directory. */
  method CountDirectory(step: WalkStep, toal0: nat) returns (toal: nat)
    ensures toal == toal0 + |AudioPaths(Entries(step))|
  {
    toal := toal0;
    var es := Entries(step);
    var f := 0;
    while f < |step.files|
      invariant 0 <= f <= |step.files|
      invariant toal == toal0 + |AudioPaths(es[..f])|
    {
      assert es[..f + 1] == es[..f] + [Entry(step.dir, step.files[f])];
      FlatMapAppend(es[..f], [Entry(step.dir, step.files[f])], TrackPath);
      if IsAudio(step.files[f]) {
        toal := toal + 1;
      }
      f := f + 1;
    }
    assert es[..f] == es;
  }

  // ---------------------------------------------------------------------
  // One track
  // ---------------------------------------------------------------------

  /** What `int(float(format_dict["duration"]) * 1000)` meets: no key; a
      text that `float` refuses or that reads as NaN (a `ValueError` either
      way); a text that reads as an infinity or whose product with 1000
      overflows to one (an `OverflowError` from `int`); or a duration
      already converted to milliseconds. */
  datatype FormatDuration = MissingDuration | NotANumber | Overflows | Millis(ms: int)

  /** The outcome of `json.loads(p.stdout)["format"]` for one file. */
  datatype ProbeOutput =
    | NotJson
    | NoFormat
    | Format(tags: Option<map<string, string>>, duration: FormatDuration)

  /** The exceptions that end a run of `main`. */
  datatype Error = MathDomainError | JsonDecodeError | KeyError(key: string) | ValueError | OverflowError

  datatype Result<+T> = Ok(value: T) | Err(error: Error)

  /** The XSPF child elements of a `track`. */
  datatype Field = Location | Title | Creator | Album | TrackNum | Duration

  datatype Child = Child(field: Field, text: string)

  type Track = seq<Child>

  /** `par.p + quote(m.as_posix())`. */
  function LocationText(prefix: string, path: string): (loc: string)
    ensures StartsWith(loc, prefix)
    ensures UrlQuote.PercentDecode(loc[|prefix|..]) == Some(UrlQuote.Utf8Encode(path))
  {
    UrlQuote.QuoteRoundTrip(path);
    var loc := prefix + UrlQuote.Quote(path);
    assert loc[|prefix|..] == UrlQuote.Quote(path);
    loc
  }

  /** The children the script gives a track for one probe output, or the
      exception it raises; `title`, `artist`, `album` and `duration` are
      looked up without a default, `track` inside `try ... except KeyError`. */
  function TrackRecord(out: ProbeOutput, location: string): Result<Track> {
    match out
    case NotJson => Err(JsonDecodeError)
    case NoFormat => Err(KeyError("format"))
    case Format(tags, duration) =>
      if tags.None? then Err(KeyError("tags"))
      else
        var t := tags.value;
        if "title" !in t then Err(KeyError("title"))
        else if "artist" !in t then Err(KeyError("artist"))
        else if "album" !in t then Err(KeyError("album"))
        else
          var head := [Child(Location, location), Child(Title, t["title"]),
                       Child(Creator, t["artist"]), Child(Album, t["album"])];
          var num := if "track" in t then [Child(TrackNum, t["track"])] else [];
          match duration
          case MissingDuration => Err(KeyError("duration"))
          case NotANumber => Err(ValueError)
          case Overflows => Err(OverflowError)
          case Millis(ms) => Ok(head + num + [Child(Duration, IntStr(ms))])
  }

  /** The record of the audio file at `path`: its probe output turned into
      a track whose location is `par.p + quote(path)`. */
  function Record(probe: string -> ProbeOutput, prefix: string, path: string): Result<Track> {
    TrackRecord(probe(path), LocationText(prefix, path))
  }

  function Fields(t: Track): seq<Field> {
    seq(|t|, k requires 0 <= k < |t| => t[k].field)
  }

  /** A track is produced exactly when the probe output has a `format` with
      tags holding `title`, `artist` and `album`, and a numeric duration. */
  lemma TrackRecordOk(out: ProbeOutput, location: string)
    ensures TrackRecord(out, location).Ok? <==>
      out.Format? && out.tags.Some? && "title" in out.tags.value && "artist" in out.tags.value
      && "album" in out.tags.value && out.duration.Millis?
  {
  }

  /** The exception raised when no track is produced: the first failing
      lookup, in the script's order `json.loads`, `["format"]`, `["tags"]`,
      `"title"`, `"artist"`, `"album"`, `["duration"]`, then the
      conversion of the duration. */
  lemma TrackRecordErr(out: ProbeOutput, location: string)
    ensures out.NotJson? ==> TrackRecord(out, location) == Err(JsonDecodeError)
    ensures out.NoFormat? ==> TrackRecord(out, location) == Err(KeyError("format"))
    ensures out.Format? && out.tags.None? ==> TrackRecord(out, location) == Err(KeyError("tags"))
    ensures out.Format? && out.tags.Some? ==>
      var t := out.tags.value;
      ("title" !in t ==> TrackRecord(out, location) == Err(KeyError("title")))
      && ("title" in t && "artist" !in t ==> TrackRecord(out, location) == Err(KeyError("artist")))
      && ("title" in t && "artist" in t && "album" !in t ==>
            TrackRecord(out, location) == Err(KeyError("album")))
      && ("title" in t && "artist" in t && "album" in t ==>
            (out.duration.MissingDuration? ==> TrackRecord(out, location) == Err(KeyError("duration")))
            && (out.duration.NotANumber? ==> TrackRecord(out, location) == Err(ValueError))
            && (out.duration.Overflows? ==> TrackRecord(out, location) == Err(OverflowError)))
  {
  }

  /** A track's children come in the order location, title, creator, album,
      trackNum (only when the `track` tag exists), duration, and carry the
      quoted location, the tag values and the milliseconds. */
  lemma TrackRecordShape(out: ProbeOutput, location: string)
    requires TrackRecord(out, location).Ok?
    ensures var t := TrackRecord(out, location).value;
            var tags := out.tags.value;
            Fields(t) == [Location, Title, Creator, Album]
                         + (if "track" in tags then [TrackNum] else []) + [Duration]
            && t[0].text == location && t[1].text == tags["title"]
            && t[2].text == tags["artist"] && t[3].text == tags["album"]
            && ("track" in tags ==> t[4].text == tags["track"])
            && t[|t| - 1].text == IntStr(out.duration.ms)
  {
    var t := TrackRecord(out, location).value;
    assert Fields(t) == seq(|t|, k requires 0 <= k < |t| => t[k].field);
  }

  /** `trackNum` is present exactly when the `track` tag is. */
  lemma TrackNumPresence(out: ProbeOutput, location: string)
    requires TrackRecord(out, location).Ok?
    ensures TrackNum in Fields(TrackRecord(out, location).value) <==> "track" in out.tags.value
  {
    TrackRecordShape(out, location);
  }

  /** Lines 72-91 of xspfgen.py: the `track` element grows one child at a
      time. */
  method BuildTrack(out: ProbeOutput, location: string) returns (r: Result<Track>)
    ensures r == TrackRecord(out, location)
  {
    if out.NotJson? {
      return Err(JsonDecodeError);
    }
    if out.NoFormat? {
      return Err(KeyError("format"));
    }
    var track: Track := [Child(Location, location)];
    if out.tags.None? {
      return Err(KeyError("tags"));
    }
    var tags := out.tags.value;
    if "title" !in tags {
      return Err(KeyError("title"));
    }
    track := track + [Child(Title, tags["title"])];
    if "artist" !in tags {
      return Err(KeyError("artist"));
    }
    track := track + [Child(Creator, tags["artist"])];
    if "album" !in tags {
      return Err(KeyError("album"));
    }
    track := track + [Child(Album, tags["album"])];
    if "track" in tags {
      track := track + [Child(TrackNum, tags["track"])];
    }
    match out.duration {
      case MissingDuration => return Err(KeyError("duration"));
      case NotANumber => return Err(ValueError);
      case Overflows => return Err(OverflowError);
      case Millis(ms) =>
        track := track + [Child(Duration, IntStr(ms))];
        assert track == [Child(Location, location), Child(Title, tags["title"]),
                         Child(Creator, tags["artist"]), Child(Album, tags["album"])]
                        + (if "track" in tags then [Child(TrackNum, tags["track"])] else [])
                        + [Child(Duration, IntStr(ms))];
        return Ok(track);
    }
  }

  // ---------------------------------------------------------------------
  // The track list
  // ---------------------------------------------------------------------

  /** The record function of a run, with the probe and `par.p` fixed. */
  function Recorder(probe: string -> ProbeOutput, prefix: string): string -> Result<Track> {
    path => Record(probe, prefix, path)
  }

  /** The tracks for `paths` in order, each made by `record`; the first
      exception ends the run. */
  function Tracks(paths: seq<string>, record: string -> Result<Track>): Result<seq<Track>> {
    if paths == [] then Ok([])
    else
      match Tracks(paths[..|paths| - 1], record)
      case Err(e) => Err(e)
      case Ok(ts) =>
        match record(paths[|paths| - 1])
        case Err(e) => Err(e)
        case Ok(t) => Ok(ts + [t])
  }

  /** A finished track list has one track per path, each the record of its
      own path, in the order of the paths. */
  lemma {:induction false} TracksOk(paths: seq<string>, record: string -> Result<Track>)
    requires Tracks(paths, record).Ok?
    ensures var ts := Tracks(paths, record).value;
            |ts| == |paths| && forall k :: 0 <= k < |paths| ==> record(paths[k]) == Ok(ts[k])
    decreases |paths|
  {
    if paths != [] {
      var n := |paths| - 1;
      var init := paths[..n];
      TracksOk(init, record);
      var ts0 := Tracks(init, record).value;
      var t := record(paths[n]).value;
      assert Tracks(paths, record).value == ts0 + [t];
      forall k | 0 <= k < n ensures init[k] == paths[k] { }
    }
  }

  /** The `k`-th path is the first whose record fails. */
  predicate FirstFailure(paths: seq<string>, k: int, record: string -> Result<Track>) {
    0 <= k < |paths| && record(paths[k]).Err?
    && forall j :: 0 <= j < k ==> record(paths[j]).Ok?
  }

  /** The run fails exactly when some path's record fails. */
  lemma {:induction false} TracksErr(paths: seq<string>, record: string -> Result<Track>)
    ensures Tracks(paths, record).Err? <==> exists k :: 0 <= k < |paths| && record(paths[k]).Err?
    decreases |paths|
  {
    if paths != [] {
      var n := |paths| - 1;
      var init := paths[..n];
      TracksErr(init, record);
      if Tracks(init, record).Err? {
        var k :| 0 <= k < n && record(init[k]).Err?;
        assert init[k] == paths[k];
      } else {
        forall k | 0 <= k < n ensures record(paths[k]).Ok? {
          assert init[k] == paths[k];
        }
      }
    }
  }

  /** A failed run fails with the exception of its first failing path. */
  lemma {:induction false} TracksFirstFailure(paths: seq<string>, k: int, record: string -> Result<Track>)
    requires FirstFailure(paths, k, record)
    ensures Tracks(paths, record) == Err(record(paths[k]).error)
    decreases |paths|
  {
    var n := |paths| - 1;
    var init := paths[..n];
    if k < n {
      forall j | 0 <= j <= k ensures init[j] == paths[j] { }
      assert FirstFailure(init, k, record);
      TracksFirstFailure(init, k, record);
    } else {
      TracksErr(init, record);
      forall j | 0 <= j < n ensures record(init[j]).Ok? {
        assert init[j] == paths[j];
      }
      assert Tracks(init, record).Ok?;
      assert k == n;
    }
  }

  /** Once a run has failed, later paths change nothing. */
  lemma {:induction false} TracksErrSticks(a: seq<string>, b: seq<string>, record: string -> Result<Track>)
    requires Tracks(a, record).Err?
    ensures Tracks(a + b, record) == Tracks(a, record)
    decreases |b|
  {
    if b == [] {
      assert a + b == a;
    } else {
      TracksErrSticks(a, b[..|b| - 1], record);
      AppendInit(a, b);
    }
  }

  /** One more path extends a finished track list by its record, or ends it
      with that record's exception. */
  lemma TracksStep(ps: seq<string>, p: string, record: string -> Result<Track>)
    requires Tracks(ps, record).Ok?
    ensures Tracks(ps + [p], record) ==
      match record(p)
      case Err(e) => Err(e)
      case Ok(t) => Ok(Tracks(ps, record).value + [t])
  {
    assert (ps + [p])[..|ps|] == ps;
  }

  // ---------------------------------------------------------------------
  // The second walk
  // ---------------------------------------------------------------------

  /** What stays fixed during the second walk: `toal`, `lm`, the probe and
      the location prefix `par.p`. */
  datatype Config = Config(toal: nat, lm: nat, probe: string -> ProbeOutput, prefix: string)

  /** What the second walk has done so far: the paths handed to `ffprobe`,
      the tracks appended, the counter `i`, the progress lines printed (up
      to their timing fields) and the exception that ended the walk, if any. */
  datatype Run = Run(probed: seq<string>, tracks: seq<Track>, i: nat, lines: seq<string>,
                     failure: Option<Error>)

  /** `i = 0`, an empty `trackList`, nothing printed yet. */
  const Start: Run := Run([], [], 0, [], None)

  /** The body of the inner loop for one file: nothing for a name without an
      audio suffix (or once an exception has ended the walk); otherwise the
      file is probed and either its track is appended, `i` incremented and a
      progress line printed, or the walk ends with the exception raised. */
  function Step(c: Config, r: Run, e: Entry): Run
    requires c.toal != 0
  {
    if r.failure.Some? || !IsAudio(e.name) then r
    else
      var m := JoinPath(e.dir, e.name);
      match Recorder(c.probe, c.prefix)(m)
      case Err(x) => r.(probed := r.probed + [m], failure := Some(x))
      case Ok(t) =>
        Run(r.probed + [m], r.tracks + [t], r.i + 1, r.lines + [ProgressLine(r.i + 1, c.toal, c.lm)], None)
  }

  /** The walk over the files `es`, in order, from the state `r`. */
  function RunOver(c: Config, r: Run, es: seq<Entry>): Run
    requires c.toal != 0
    decreases |es|
  {
    if es == [] then r else Step(c, RunOver(c, r, es[..|es| - 1]), es[|es| - 1])
  }

  /** Walking `a` and then `b` is walking `a + b`. */
  lemma {:induction false} RunOverAppend(c: Config, r: Run, a: seq<Entry>, b: seq<Entry>)
    requires c.toal != 0
    ensures RunOver(c, r, a + b) == RunOver(c, RunOver(c, r, a), b)
    decreases |b|
  {
    if b == [] {
      assert a + b == a;
    } else {
      RunOverAppend(c, r, a, b[..|b| - 1]);
      AppendInit(a, b);
    }
  }

  /** After an exception nothing more happens. */
  lemma {:induction false} RunOverStopped(c: Config, r: Run, es: seq<Entry>)
    requires c.toal != 0 && r.failure.Some?
    ensures RunOver(c, r, es) == r
    decreases |es|
  {
    if es != [] {
      RunOverStopped(c, r, es[..|es| - 1]);
    }
  }

  /** What a state of the walk says about the audio paths `paths` met so
      far: every line printed is the line of its own track; a walk that has
      not failed has probed every path once, in order, and holds their track
      list, with `i` its length; a walk that has failed has probed the first
      `i + 1` paths, the last of which raised the exception, holds the
      tracks of the first `i`, and the exception is that of the whole
      track list. */
  predicate Explains(c: Config, r: Run, paths: seq<string>)
    requires c.toal != 0
  {
    var record := Recorder(c.probe, c.prefix);
    r.lines == ProgressLines(r.i, c.toal, c.lm) && |r.tracks| == r.i
    && (r.failure.None? ==>
          r.probed == paths && Tracks(paths, record) == Ok(r.tracks) && r.i == |paths|)
    && (r.failure.Some? ==>
          r.i < |paths| && r.probed == paths[..r.i + 1]
          && Tracks(paths[..r.i], record) == Ok(r.tracks)
          && record(paths[r.i]) == Err(r.failure.value)
          && Tracks(paths, record) == Err(r.failure.value))
  }

  /** The state a walk over `es` ends in explains the audio paths of `es`. */
  lemma {:induction false} RunOverMeaning(c: Config, es: seq<Entry>)
    requires c.toal != 0
    ensures Explains(c, RunOver(c, Start, es), AudioPaths(es))
    decreases |es|
  {
    if es != [] {
      var n := |es| - 1;
      var init, e := es[..n], es[n];
      RunOverMeaning(c, init);
      InitLast(es);
      FlatMapAppend(init, [e], TrackPath);
      StepMeaning(c, RunOver(c, Start, init), AudioPaths(init), e);
    }
  }

  /** One step keeps a state explaining the paths met, adding the step's
      own path when it names an audio file. */
  lemma StepMeaning(c: Config, r: Run, p: seq<string>, e: Entry)
    requires c.toal != 0 && Explains(c, r, p)
    ensures Explains(c, Step(c, r, e), p + AudioPaths([e]))
  {
    var more := TrackPath(e);
    FlatMapSingle(e, TrackPath);
    if r.failure.Some? {
      StoppedMeaning(c, r, p, more);
    } else if IsAudio(e.name) {
      AudioMeaning(c, r, p, e);
    } else {
      AppendEmpty(p, more);
    }
  }

  lemma StoppedMeaning(c: Config, r: Run, p: seq<string>, more: seq<string>)
    requires c.toal != 0 && Explains(c, r, p) && r.failure.Some?
    ensures Explains(c, r, p + more)
  {
    var paths := p + more;
    assert paths[..r.i + 1] == p[..r.i + 1];
    assert paths[..r.i] == p[..r.i];
    assert paths[r.i] == p[r.i];
    TracksErrSticks(p, more, Recorder(c.probe, c.prefix));
  }

  lemma AudioMeaning(c: Config, r: Run, p: seq<string>, e: Entry)
    requires c.toal != 0 && Explains(c, r, p) && r.failure.None? && IsAudio(e.name)
    ensures Explains(c, Step(c, r, e), p + [JoinPath(e.dir, e.name)])
  {
    var m := JoinPath(e.dir, e.name);
    var record := Recorder(c.probe, c.prefix);
    var paths := p + [m];
    TracksStep(p, m, record);
    assert paths[..r.i] == p;
    assert paths[..r.i + 1] == paths;
    match record(m)
    case Err(x) =>
      assert Step(c, r, e) == r.(probed := paths, failure := Some(x));
    case Ok(t) =>
      ProgressLinesSnoc(r.i, c.toal, c.lm);
      assert Step(c, r, e) ==
        Run(paths, r.tracks + [t], r.i + 1, ProgressLines(r.i + 1, c.toal, c.lm), None);
  }

  /** Lines 51-108 of xspfgen.py for one file `name` of directory `dir`,
      which the walk reaches only while no exception has been raised. */
  method ProbeFile(c: Config, dir: string, name: string, r0: Run) returns (r: Run)
    requires c.toal != 0 && r0.failure.None?
    ensures r == Step(c, r0, Entry(dir, name))
  {
    r := r0;
    if IsAudio(name) {
      var m := JoinPath(dir, name);
      r := r.(probed := r.probed + [m]);
      var track := BuildTrack(c.probe(m), LocationText(c.prefix, m));
      if track.Err? {
        r := r.(failure := Some(track.error));
        return;
      }
      var i := r.i + 1;
      r := r.(tracks := r.tracks + [track.value], i := i, lines := r.lines + [ProgressLine(i, c.toal, c.lm)]);
    }
  }

  /** The inner `for file in files` loop over one directory of the second
      walk; an exception leaves the loop. */
  method ProbeDirectory(c: Config, step: WalkStep, r0: Run) returns (r: Run)
    requires c.toal != 0
    ensures r == RunOver(c, r0, Entries(step))
  {
    r := r0;
    var es := Entries(step);
    var f := 0;
    if r.failure.Some? {
      RunOverStopped(c, r, es);
      return;
    }
    while f < |step.files| && r.failure.None?
      invariant 0 <= f <= |step.files|
      invariant r == RunOver(c, r0, es[..f])
    {
      r := ProbeFile(c, step.dir, step.files[f], r);
      assert es[..f + 1][..f] == es[..f];
      f := f + 1;
    }
    if f < |step.files| {
      RunOverAppend(c, r0, es[..f], es[f..]);
      RunOverStopped(c, r, es[f..]);
      assert es[..f] + es[f..] == es;
    } else {
      assert es[..f] == es;
    }
  }

  /** The outer `for supdir, subdir, files in par.path.walk()` loop of the
      second walk; an exception leaves it. */
  method ProbeWalk(c: Config, walk: seq<WalkStep>) returns (r: Run)
    requires c.toal != 0
    ensures r == RunOver(c, Start, AllFiles(walk))
  {
    r := Start;
    var w := 0;
    while w < |walk| && r.failure.None?
      invariant 0 <= w <= |walk|
      invariant r == RunOver(c, Start, AllFiles(walk[..w]))
    {
      r := ProbeDirectory(c, walk[w], r);
      AllFilesStep(walk, w);
      RunOverAppend(c, Start, AllFiles(walk[..w]), Entries(walk[w]));
      w := w + 1;
    }
    if w < |walk| {
      var rest := Entries(walk[w]) + AllFiles(walk[w + 1..]);
      AllFilesSplit(walk, w);
      assert AllFiles(walk) == AllFiles(walk[..w]) + rest;
      RunOverAppend(c, Start, AllFiles(walk[..w]), rest);
      RunOverStopped(c, r, rest);
    } else {
      assert walk[..w] == walk;
    }
  }

  /** What `main` returns once the second walk has ended in `r`: the
      exception that ended it, or the track list it built. */
  function Outcome(r: Run): Result<seq<Track>> {
    if r.failure.Some? then Err(r.failure.value) else Ok(r.tracks)
  }

  /** The outcome of a whole second walk is the track list of its audio
      paths, and a finished walk has counted every one of them. */
  lemma OutcomeMeaning(c: Config, es: seq<Entry>)
    requires c.toal != 0
    ensures var r := RunOver(c, Start, es);
            Outcome(r) == Tracks(AudioPaths(es), Recorder(c.probe, c.prefix))
            && (Outcome(r).Ok? ==> r.i == |AudioPaths(es)|)
  {
    RunOverMeaning(c, es);
  }

  /** `main` from the first walk to the end of the second: `toal`, the
      track list or the exception that ends the run, and the state the
      second walk ends in. */
  method Generate(walk1: seq<WalkStep>, walk2: seq<WalkStep>, probe: string -> ProbeOutput, prefix: string)
    returns (toal: nat, result: Result<seq<Track>>, r: Run)
    ensures toal == |AudioPaths(AllFiles(walk1))|
    ensures toal == 0 ==> result == Err(MathDomainError) && r == Start
    ensures toal > 0 ==>
      r == RunOver(Config(toal, DigitWidth(toal).value, probe, prefix), Start, AllFiles(walk2))
      && result == Tracks(AudioPaths(AllFiles(walk2)), Recorder(probe, prefix))
    ensures result.Ok? ==> r.tracks == result.value && r.i == |AudioPaths(AllFiles(walk2))|
    ensures walk1 == walk2 && result.Ok? ==> r.i == toal
  {
    toal := CountAudio(walk1);
    var lm := DigitWidth(toal);
    if lm.None? {
      return toal, Err(MathDomainError), Start;
    }
    var c := Config(toal, lm.value, probe, prefix);
    r := ProbeWalk(c, walk2);
    OutcomeMeaning(c, AllFiles(walk2));
    result := Outcome(r);
  }

  lemma AllFilesStep(walk: seq<WalkStep>, w: nat)
    requires w < |walk|
    ensures AllFiles(walk[..w + 1]) == AllFiles(walk[..w]) + Entries(walk[w])
  {
    FlatMapStep(walk, w, Entries);
  }

  /** A walk's files split around its `w`-th directory. */
  lemma AllFilesSplit(walk: seq<WalkStep>, w: nat)
    requires w < |walk|
    ensures AllFiles(walk) == AllFiles(walk[..w]) + Entries(walk[w]) + AllFiles(walk[w + 1..])
  {
    SplitAt(walk, w + 1);
    FlatMapAppend(walk[..w + 1], walk[w + 1..], Entries);
    FlatMapStep(walk, w, Entries);
  }
}
