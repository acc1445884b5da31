/** The structure check that vtt2lrc.py runs over each `.vtt` file it
    finds: the text is cut into blocks at blank lines, the first block must
    open with `WEBVTT` (the file signature of section 4.1 of the W3C WebVTT
    format), and every later block other than `"\n"` is taken as a cue and
    split into lines. A cue whose first line is only digits is read as a cue
    identifier and must be followed by a second line, else the program calls
    `exit()`; first and second lines are also tested against a timing-line
    pattern whose outcome is never used. */
module VttCheck {
  import opened PyStr
  import opened Seqs

  /** What the header check prints: "空文件" (empty file) or
      "错误的WEBVTT文件语法" (wrong WEBVTT file syntax). */
  datatype Message = EmptyFile | WrongSyntax

  /** How the loop over `cuegroup` treats one cue, by its first line. */
  datatype CueKind =
    | Numbered(timed: bool)  // digits-only first line, then a second line; `timed`: the second line's pattern test
    | Lone                   // digits-only first line and nothing else: `exit()`
    | Timed                  // any other first line that passes the pattern test
    | Untimed                // any other first line

  /** What one file produces: the header message, if any; the kinds of the
      cues handled, in order; and whether the program exited there. */
  datatype FileReport = FileReport(header: Option<Message>, kinds: seq<CueKind>, exited: bool)

  // ---------------------------------------------------------------------
  // The timing-line pattern
  // ---------------------------------------------------------------------

  /** The position of the first non-digit at or after `from`. */
  function SkipDigits(s: string, from: nat): (r: nat)
    requires from <= |s|
    ensures from <= r <= |s|
    ensures forall k :: from <= k < r ==> IsDigit(s[k])
    ensures r < |s| ==> !IsDigit(s[r])
    decreases |s| - from
  {
    if from < |s| && IsDigit(s[from]) then SkipDigits(s, from + 1) else from
  }

  /** A full match of runs of digits separated, in order, by the
      characters of `seps`, none of which is a digit: each `\d*` can only
      take the whole run of digits in front of it. */
  predicate DigitRuns(s: string, seps: string)
    decreases |seps|
  {
    var a := SkipDigits(s, 0);
    if seps == [] then a == |s|
    else a < |s| && s[a] == seps[0] && DigitRuns(s[a + 1..], seps[1..])
  }

  /** A full match of `\d*:\d*:\d*\.\d*`. */
  predicate StampMatch(s: string) {
    DigitRuns(s, "::.")
  }

  /** `re.fullmatch(r"\d*:\d*:\d*\.\d*(?= --\> )\d*:\d*:\d*\.\d*", s)`: a
      stamp up to some position `p`, the look-ahead ` --> ` at `p` (which
      consumes nothing), and a second stamp from `p` to the end. */
  predicate TimingLine(s: string) {
    exists p :: 0 <= p <= |s| && StampMatch(s[..p]) && StartsWith(s[p..], " --> ") && StampMatch(s[p..])
  }

  /** The digits run `d` starting at `from`, followed by a non-digit or the
      end, is what `SkipDigits` skips. */
  lemma {:induction false} SkipDigitsOver(s: string, from: nat, d: string)
    requires from + |d| <= |s| && s[from..from + |d|] == d && AllDigits(d)
    requires from + |d| < |s| ==> !IsDigit(s[from + |d|])
    ensures SkipDigits(s, from) == from + |d|
    decreases |d|
  {
    if d != [] {
      assert s[from] == d[0];
      assert s[from + 1..from + |d|] == d[1..];
      SkipDigitsOver(s, from + 1, d[1..]);
    }
  }

  /** A run of digits, a separator, then the rest. */
  lemma RunThen(d: string, c: char, t: string, seps: string)
    requires AllDigits(d) && !IsDigit(c)
    ensures DigitRuns(d + [c] + t, [c] + seps) <==> DigitRuns(t, seps)
  {
    var s := d + [c] + t;
    assert s[..|d|] == d;
    SkipDigitsOver(s, 0, d);
    assert s[|d| + 1..] == t;
    assert ([c] + seps)[1..] == seps;
  }

  lemma RunLast(d: string)
    ensures DigitRuns(d, "") <==> AllDigits(d)
  {
    if AllDigits(d) {
      assert d[..|d|] == d;
      SkipDigitsOver(d, 0, d);
    }
  }

  /** A match cut at its first separator. */
  lemma RunSplit(s: string, seps: string)
    requires seps != [] && DigitRuns(s, seps)
    ensures SkipDigits(s, 0) < |s| && s[SkipDigits(s, 0)] == seps[0]
    ensures AllDigits(s[..SkipDigits(s, 0)])
    ensures DigitRuns(s[SkipDigits(s, 0) + 1..], seps[1..])
  {
  }

  lemma CutAt(s: string, a: nat)
    requires a < |s|
    ensures s == s[..a] + [s[a]] + s[a + 1..]
  {
    assert s[a..] == [s[a]] + s[a + 1..];
    assert s == s[..a] + s[a..];
  }

  /** The pattern is what it says: four runs of digits separated by `:`,
      `:` and `.`. */
  lemma StampMatchShape(s: string)
    ensures StampMatch(s) <==>
      exists d1, d2, d3, d4 :: AllDigits(d1) && AllDigits(d2) && AllDigits(d3) && AllDigits(d4)
        && s == d1 + ":" + d2 + ":" + d3 + "." + d4
  {
    if StampMatch(s) {
      var d1, d2, d3, d4 := StampRuns(s);
      assert AllDigits(d1) && AllDigits(d2) && AllDigits(d3) && AllDigits(d4)
        && s == d1 + ":" + d2 + ":" + d3 + "." + d4;
    }
    if exists d1, d2, d3, d4 :: AllDigits(d1) && AllDigits(d2) && AllDigits(d3) && AllDigits(d4)
        && s == d1 + ":" + d2 + ":" + d3 + "." + d4 {
      var d1, d2, d3, d4 :| AllDigits(d1) && AllDigits(d2) && AllDigits(d3) && AllDigits(d4)
        && s == d1 + ":" + d2 + ":" + d3 + "." + d4;
      StampFromRuns(d1, d2, d3, d4);
    }
  }

  lemma StampRuns(s: string) returns (d1: string, d2: string, d3: string, d4: string)
    requires StampMatch(s)
    ensures AllDigits(d1) && AllDigits(d2) && AllDigits(d3) && AllDigits(d4)
    ensures s == d1 + ":" + d2 + ":" + d3 + "." + d4
  {
    var t1, t2;
    assert "::."[0] == ':' && "::."[1..] == ":.";
    d1, t1 := RunCut(s, "::.");
    assert ":."[0] == ':' && ":."[1..] == ".";
    d2, t2 := RunCut(t1, ":.");
    assert "."[0] == '.' && "."[1..] == "";
    d3, d4 := RunCut(t2, ".");
    RunLast(d4);
    StampNested(d1, d2, d3, d4);
  }

  /** A match cut into its first run, its first separator and the rest. */
  lemma RunCut(s: string, seps: string) returns (d: string, t: string)
    requires seps != [] && DigitRuns(s, seps)
    ensures AllDigits(d) && s == d + [seps[0]] + t && DigitRuns(t, seps[1..])
  {
    RunSplit(s, seps);
    var a := SkipDigits(s, 0);
    d, t := s[..a], s[a + 1..];
    CutAt(s, a);
  }

  lemma StampNested(d1: string, d2: string, d3: string, d4: string)
    ensures d1 + ":" + d2 + ":" + d3 + "." + d4 == d1 + [':'] + (d2 + [':'] + (d3 + ['.'] + d4))
  {
  }

  lemma StampFromRuns(d1: string, d2: string, d3: string, d4: string)
    requires AllDigits(d1) && AllDigits(d2) && AllDigits(d3) && AllDigits(d4)
    ensures StampMatch(d1 + ":" + d2 + ":" + d3 + "." + d4)
  {
    var t2 := d3 + ['.'] + d4;
    var t1 := d2 + [':'] + t2;
    RunLast(d4);
    RunThen(d3, '.', d4, "");
    RunThen(d2, ':', t2, ".");
    RunThen(d1, ':', t1, ":.");
    StampNested(d1, d2, d3, d4);
  }

  /** A stamp begins with a digit or `:`, never with the space that opens
      ` --> `. */
  lemma StampNotArrow(t: string)
    requires StartsWith(t, " --> ")
    ensures !StampMatch(t)
  {
    assert t[0] == t[..5][0] == ' ';
    assert SkipDigits(t, 0) == 0;
    assert "::."[0] == ':';
  }

  /** The timing pattern matches no line at all: after the look-ahead has
      required a space at `p`, the second stamp must start there. */
  lemma TimingNeverMatches(s: string)
    ensures !TimingLine(s)
  {
    forall p | 0 <= p <= |s|
      ensures !(StartsWith(s[p..], " --> ") && StampMatch(s[p..]))
    {
      if StartsWith(s[p..], " --> ") {
        StampNotArrow(s[p..]);
      }
    }
  }

  // ---------------------------------------------------------------------
  // Blocks and cues
  // ---------------------------------------------------------------------

  /** `vttfile.read_text().split("\n\n")`: at least one block, and the
      blocks joined with blank lines give back the text. */
  function Blocks(text: string): (bs: seq<string>)
    ensures |bs| >= 1
    ensures Join(bs, "\n\n") == text
  {
    SplitJoin(text, "\n\n");
    Split(text, "\n\n")
  }

  /** The header check on `next(cues)`; the `StopIteration` branch would
      print "empty file" if there were no first block. */
  function Header(text: string): (m: Option<Message>)
    ensures m != Some(EmptyFile)
    ensures m == Some(WrongSyntax) <==> !StartsWith(Blocks(text)[0], "WEBVTT")
    ensures m == None <==> StartsWith(Blocks(text)[0], "WEBVTT")
  {
    var blocks := Blocks(text);
    if |blocks| == 0 then Some(EmptyFile)
    else if !StartsWith(blocks[0], "WEBVTT") then Some(WrongSyntax)
    else None
  }

  /** The blocks after the header that `if i != "\n"` keeps, in order. */
  function Kept(bs: seq<string>): (r: seq<string>)
    ensures |r| <= |bs|
  {
    if bs == [] then [] else KeepOne(bs[0]) + Kept(bs[1..])
  }

  /** One block through the filter: `"\n"` is dropped, anything else kept. */
  function KeepOne(block: string): seq<string> {
    if block == "\n" then [] else [block]
  }

  /** Exactly the blocks equal to `"\n"` are dropped, every other block is
      kept as many times as it occurs. */
  lemma {:induction false} KeptMultiset(bs: seq<string>)
    ensures multiset(Kept(bs)) == multiset(bs)["\n" := 0]
  {
    if bs != [] {
      var rest := bs[1..];
      KeptMultiset(rest);
      KeepOneMultiset(bs[0]);
      DropUnion(multiset([bs[0]]), multiset(rest));
      ConsMultiset(bs);
    }
  }

  lemma KeepOneMultiset(block: string)
    ensures multiset(KeepOne(block)) == multiset([block])["\n" := 0]
  {
  }

  lemma DropUnion(a: multiset<string>, b: multiset<string>)
    ensures (a + b)["\n" := 0] == a["\n" := 0] + b["\n" := 0]
  {
  }

  lemma ConsMultiset(s: seq<string>)
    requires s != []
    ensures multiset(s) == multiset([s[0]]) + multiset(s[1..])
  {
    assert s == [s[0]] + s[1..];
  }

  /** The filter keeps order: filtering a concatenation filters each part. */
  lemma {:induction false} KeptAppend(a: seq<string>, b: seq<string>)
    ensures Kept(a + b) == Kept(a) + Kept(b)
  {
    if a == [] {
      assert a + b == b;
    } else {
      var ab := a + b;
      assert ab[0] == a[0] && ab[1..] == a[1..] + b;
      KeptAppend(a[1..], b);
      calc {
        Kept(ab);
        KeepOne(a[0]) + Kept(a[1..] + b);
        KeepOne(a[0]) + (Kept(a[1..]) + Kept(b));
        (KeepOne(a[0]) + Kept(a[1..])) + Kept(b);
      }
    }
  }

  /** A block as its list of lines, `i.split("\n")`: never empty, no line
      holds a newline, and the lines joined with newlines give back the
      block. */
  function Lines(block: string): (cue: seq<string>)
    ensures |cue| >= 1
    ensures Join(cue, "\n") == block
    ensures forall j :: 0 <= j < |cue| ==> !Contains(cue[j], "\n")
  {
    SplitJoin(block, "\n");
    SplitPiecesFree(block, "\n");
    Split(block, "\n")
  }

  /** `cuegroup`, built from the blocks `rest` that follow the header: one
      cue per kept block, in order, each a non-empty list of lines that
      joins back into its block. */
  function CueGroup(rest: seq<string>): (cues: seq<seq<string>>)
    ensures |cues| == |Kept(rest)|
    ensures forall k :: 0 <= k < |cues| ==> |cues[k]| >= 1 && Join(cues[k], "\n") == Kept(rest)[k]
  {
    var kept := Kept(rest);
    seq(|kept|, k requires 0 <= k < |kept| => Lines(kept[k]))
  }

  /** The first line decides; a digits-only first line needs a second. */
  function Classify(cue: seq<string>): CueKind
    requires |cue| >= 1
  {
    if AllDigits(cue[0]) then
      if |cue| >= 2 then Numbered(TimingLine(cue[1])) else Lone
    else if TimingLine(cue[0]) then Timed
    else Untimed
  }

  /** Whether the loop ends at a cue of this kind. */
  predicate Exits(kind: CueKind) {
    kind.Lone?
  }

  /** The kinds of the cues of `cues` that the loop handles: each in
      order, up to and including the first that makes the program exit. */
  function Kinds(cues: seq<seq<string>>): seq<CueKind>
    requires forall cue :: cue in cues ==> |cue| >= 1
  {
    TakeThrough(cues, Classify, Exits)
  }

  /** What the program does with one file's text. */
  function Verdict(text: string): FileReport {
    var kinds := Kinds(CueGroup(Blocks(text)[1..]));
    FileReport(Header(text), kinds, Lone in kinds)
  }

  /** The handled cues are a prefix of the cues, classified one by one; the
      loop stops short only at a lone identifier, the last cue handled. */
  lemma KindsShape(cues: seq<seq<string>>)
    requires forall cue :: cue in cues ==> |cue| >= 1
    ensures var kinds := Kinds(cues);
            |kinds| <= |cues|
            && (forall k :: 0 <= k < |kinds| ==> kinds[k] == Classify(cues[k]))
            && (forall k :: 0 <= k < |kinds| - 1 ==> !kinds[k].Lone?)
            && (|kinds| < |cues| ==> |kinds| > 0 && kinds[|kinds| - 1].Lone?)
  {
    TakeThroughShape(cues, Classify, Exits);
  }

  /** The loop exits exactly when some cue is a lone identifier. */
  lemma KindsLone(cues: seq<seq<string>>)
    requires forall cue :: cue in cues ==> |cue| >= 1
    ensures Lone in Kinds(cues) <==> exists k :: 0 <= k < |cues| && Classify(cues[k]).Lone?
  {
    KindsShape(cues);
    var kinds := Kinds(cues);
    if Lone in kinds {
      var k :| 0 <= k < |kinds| && kinds[k] == Lone;
      assert Classify(cues[k]).Lone?;
    }
    if exists k :: 0 <= k < |cues| && Classify(cues[k]).Lone? {
      var k :| 0 <= k < |cues| && Classify(cues[k]).Lone?;
      if |kinds| == |cues| {
        assert kinds[k] == Lone;
      } else {
        assert kinds[|kinds| - 1] == Lone;
      }
    }
  }

  /** A block makes the program exit exactly when it is made only of
      digits (the empty block included): then it has a single line, and
      that line is an identifier with no timing line after it. */
  lemma LoneBlock(block: string)
    ensures Classify(Lines(block)).Lone? <==> AllDigits(block)
  {
    var cue := Lines(block);
    match FindFrom(block, "\n", 0)
    case None =>
      assert cue == [block];
    case Some(k) =>
      assert !IsDigit(block[k]);
      assert |cue| >= 2;
  }

  /** A block is kept exactly when it is not `"\n"`. */
  lemma {:induction false} KeptMember(bs: seq<string>, x: string)
    ensures x in Kept(bs) <==> x in bs && x != "\n"
  {
    if bs != [] {
      KeptMember(bs[1..], x);
      assert bs == [bs[0]] + bs[1..];
    }
  }

  /** The program exits on a file exactly when some block after the first
      is made only of digits, whatever the header check printed. */
  lemma ExitIff(text: string)
    ensures Verdict(text).exited <==> exists j :: 1 <= j < |Blocks(text)| && AllDigits(Blocks(text)[j])
  {
    var rest := Blocks(text)[1..];
    var cues := CueGroup(rest);
    KindsLone(cues);
    if Verdict(text).exited {
      var kept := Kept(rest);
      var k :| 0 <= k < |cues| && Classify(cues[k]).Lone?;
      assert cues[k] == Lines(kept[k]);
      LoneBlock(kept[k]);
      KeptMember(rest, kept[k]);
      var j :| 0 <= j < |rest| && rest[j] == kept[k];
      assert Blocks(text)[j + 1] == rest[j];
    }
    if exists j :: 1 <= j < |Blocks(text)| && AllDigits(Blocks(text)[j]) {
      var j :| 1 <= j < |Blocks(text)| && AllDigits(Blocks(text)[j]);
      DigitsBlockExits(rest, Blocks(text)[j]);
    }
  }

  lemma DigitsBlockExits(rest: seq<string>, block: string)
    requires block in rest && AllDigits(block)
    ensures exists k :: 0 <= k < |CueGroup(rest)| && Classify(CueGroup(rest)[k]).Lone?
  {
    assert block != "\n" by {
      assert "\n"[0] == '\n';
    }
    KeptMember(rest, block);
    var kept := Kept(rest);
    var k :| 0 <= k < |kept| && kept[k] == block;
    LoneBlock(block);
    assert CueGroup(rest)[k] == Lines(block);
  }

  /** The pattern tests never change anything: no handled cue is timed. */
  lemma TimingIrrelevant(text: string)
    ensures forall k :: 0 <= k < |Verdict(text).kinds| ==>
      Verdict(text).kinds[k] == Numbered(false) || Verdict(text).kinds[k] in [Lone, Untimed]
  {
    var cues := CueGroup(Blocks(text)[1..]);
    KindsShape(cues);
    forall k | 0 <= k < |Kinds(cues)|
      ensures Kinds(cues)[k] == Numbered(false) || Kinds(cues)[k] in [Lone, Untimed]
    {
      var cue := cues[k];
      TimingNeverMatches(cue[0]);
      if |cue| >= 2 {
        TimingNeverMatches(cue[1]);
      }
    }
  }

  /** An empty file is reported as wrong syntax, not as an empty file, and
      has no cues. */
  lemma EmptyText()
    ensures Verdict("") == FileReport(Some(WrongSyntax), [], false)
  {
    assert FindFrom("", "\n\n", 0) == None;
    assert Blocks("") == [""];
  }

  /** A file that is only the signature followed by a blank line exits:
      the split leaves an empty last block. */
  lemma BlankLineAfterHeaderExits()
    ensures Verdict("WEBVTT\n\n").exited
  {
    var text := "WEBVTT\n\n";
    assert OccursAt(text, "\n\n", 6);
    forall j | 0 <= j < 6 ensures !OccursAt(text, "\n\n", j) {
      assert text[j..j + 2][0] == text[j] != '\n';
    }
    assert FindFrom(text, "\n\n", 0) == Some(6);
    assert Split(text, "\n\n") == [text[..6]] + Split(text[8..], "\n\n");
    assert text[..6] == "WEBVTT" && text[8..] == "";
    assert FindFrom("", "\n\n", 0) == None;
    assert Split("", "\n\n") == [""];
    assert Blocks(text) == ["WEBVTT", ""];
    ExitIff(text);
    assert AllDigits(Blocks(text)[1]);
  }

  /** Three newlines after the signature: the cut is at the first two, so
      the second block starts with the third newline, is not made only of
      digits, and the program does not exit. */
  lemma ThirdNewlineStaysInCue()
    ensures Blocks("WEBVTT\n\n\n1") == ["WEBVTT", "\n1"]
    ensures !Verdict("WEBVTT\n\n\n1").exited
  {
    var text := "WEBVTT\n\n\n1";
    ThirdNewlineBlocks();
    ExitIff(text);
    assert !IsDigit(Blocks(text)[1][0]);
  }

  lemma ThirdNewlineBlocks()
    ensures Blocks("WEBVTT\n\n\n1") == ["WEBVTT", "\n1"]
  {
    var text := "WEBVTT\n\n\n1";
    assert OccursAt(text, "\n\n", 6);
    forall j | 0 <= j < 6 ensures !OccursAt(text, "\n\n", j) {
      assert text[j..j + 2][0] == text[j] != '\n';
    }
    assert FindFrom(text, "\n\n", 0) == Some(6);
    assert Split(text, "\n\n") == [text[..6]] + Split(text[8..], "\n\n");
    assert text[..6] == "WEBVTT" && text[8..] == "\n1";
    assert !OccursAt("\n1", "\n\n", 0) by {
      assert "\n1"[0..2][1] == '1';
    }
    assert FindFrom("\n1", "\n\n", 0) == None;
    assert Split(text[8..], "\n\n") == ["\n1"];
  }

  // ---------------------------------------------------------------------
  // The loops
  // ---------------------------------------------------------------------

  /** Lines 33-46 of vtt2lrc.py for one cue: `next(linar)` reads the
      first line, a digits-only first line reads a second one (none left:
      `exit()`), and the closing `for` loop reads whatever lines remain. */
  method CheckCue(cue: seq<string>) returns (kind: CueKind)
    requires |cue| >= 1
    ensures kind == Classify(cue)
  {
    var firstline := cue[0];
    var next := 1;
    if AllDigits(firstline) {
      if next == |cue| {
        return Lone;
      }
      kind := Numbered(TimingLine(cue[next]));
      next := next + 1;
    } else if TimingLine(firstline) {
      kind := Timed;
    } else {
      kind := Untimed;
    }
    while next < |cue|
      invariant next <= |cue|
    {
      next := next + 1;
    }
  }

  /** Lines 23-46 of vtt2lrc.py for one file: the header check on the
      first block, then `cuegroup`, every kept block split into its lines
      before the loop starts, then the loop over `cuegroup` until a cue
      makes the program exit. */
  method CheckFile(text: string) returns (report: FileReport)
    ensures report == Verdict(text)
  {
    var blocks := Blocks(text);
    var header: Option<Message>;
    if |blocks| == 0 {
      header := Some(EmptyFile);
    } else if !StartsWith(blocks[0], "WEBVTT") {
      header := Some(WrongSyntax);
    } else {
      header := None;
    }
    var cuegroup := CueGroup(blocks[1..]);
    var kinds := CheckCues(cuegroup);
    return FileReport(header, kinds, Lone in kinds);
  }

  /** The loop over `cuegroup`: stops at the first cue that exits. */
  method CheckCues(cuegroup: seq<seq<string>>) returns (kinds: seq<CueKind>)
    requires forall cue :: cue in cuegroup ==> |cue| >= 1
    ensures kinds == Kinds(cuegroup)
  {
    kinds := [];
    var k := 0;
    while k < |cuegroup|
      invariant 0 <= k <= |cuegroup| && |kinds| == k
      invariant Kinds(cuegroup) == kinds + Kinds(cuegroup[k..])
    {
      var kind := CheckCue(cuegroup[k]);
      TakeThroughFrom(cuegroup, k, Classify, Exits);
      if kind.Lone? {
        return kinds + [kind];
      }
      ghost var later := Kinds(cuegroup[k + 1..]);
      AppendAssoc(kinds, [kind], later);
      kinds := kinds + [kind];
      k := k + 1;
    }
    assert cuegroup[k..] == [];
  }

  /** The reports of the files the loop over the files found reads: each
      file in turn, up to and including the first that makes the program
      exit, after which no file is read. */
  function Reports(texts: seq<string>): seq<FileReport> {
    TakeThrough(texts, Verdict, Exited)
  }

  predicate Exited(report: FileReport) {
    report.exited
  }

  /** One report per file read, in order; every file before the last read
      was left normally, and the loop stops short of the last file only
      because the last file read made the program exit. */
  lemma ReportsShape(texts: seq<string>)
    ensures |Reports(texts)| <= |texts|
    ensures forall k :: 0 <= k < |Reports(texts)| ==> Reports(texts)[k] == Verdict(texts[k])
    ensures forall k :: 0 <= k < |Reports(texts)| - 1 ==> !Reports(texts)[k].exited
    ensures |Reports(texts)| < |texts| ==> |Reports(texts)| > 0 && Reports(texts)[|Reports(texts)| - 1].exited
  {
    var reports := Reports(texts);
    TakeThroughShape(texts, Verdict, Exited);
    forall k | 0 <= k < |reports| - 1 ensures !reports[k].exited {
      assert !Exited(reports[k]);
    }
  }

  /** The loop over the files found. */
  method CheckFiles(texts: seq<string>) returns (reports: seq<FileReport>)
    ensures reports == Reports(texts)
  {
    reports := [];
    var n := 0;
    while n < |texts|
      invariant 0 <= n <= |texts|
      invariant Reports(texts) == reports + Reports(texts[n..])
    {
      var report := CheckFile(texts[n]);
      TakeThroughFrom(texts, n, Verdict, Exited);
      if report.exited {
        return reports + [report];
      }
      ghost var later := Reports(texts[n + 1..]);
      AppendAssoc(reports, [report], later);
      reports := reports + [report];
      n := n + 1;
    }
    assert texts[n..] == [];
  }
}
