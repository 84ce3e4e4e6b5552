/**
  The logic of main.py: cleaning a transcript's text (`clean_text`), turning a
  transcript's file name into a note title (`format_title`), deriving where
  the note goes (`process_txt_to_md`, lines 54-59) and picking the
  transcripts out of a folder walk (`process_folder_recursive`).
  Paths are lists of path segments.
 */
module Notes {
  import opened Wrappers
  import opened PyStr
  import opened TitlePattern

  type Path = seq<string>

  /** The language suffix of a transcript file. */
  const EnTxt := ".en.txt"

  // ---------------------------------------------------------------------------
  // clean_text
  // ---------------------------------------------------------------------------

  /** Whether `t[i]` is a newline with no newline on either side of it. */
  predicate IsolatedNewline(t: string, i: nat)
    requires i < |t|
  {
    t[i] == '\n' && (i == 0 || t[i - 1] != '\n') && (i == |t| - 1 || t[i + 1] != '\n')
  }

  /**
    `re.sub(r"(?<!\n)\n(?!\n)", " ", t)` as a left-to-right scan; `afterNewline`
    is what the look-behind sees before the first character of `t`.
   */
  function JoinLines(t: string, afterNewline: bool): (r: string)
    ensures |r| == |t|
  {
    if t == [] then []
    else
      var isolated := t[0] == '\n' && !afterNewline && (|t| == 1 || t[1] != '\n');
      [if isolated then ' ' else t[0]] + JoinLines(t[1..], t[0] == '\n')
  }

  lemma {:induction false} JoinLinesAt(t: string, afterNewline: bool, i: nat)
    requires 0 < i < |t|
    ensures JoinLines(t, afterNewline)[i] == if IsolatedNewline(t, i) then ' ' else t[i]
  {
    if i > 1 {
      JoinLinesAt(t[1..], t[0] == '\n', i - 1);
    }
  }

  /** `clean_text(text)`: strip, then join lines broken by a lone newline. */
  function CleanText(text: string): string {
    JoinLines(Strip(text), false)
  }

  /**
    After the strip, `clean_text` maps characters one for one: a newline with
    no newline beside it becomes a space, every other character (including
    each newline of a run of two or more) is kept.
   */
  lemma CleanTextAt(text: string, i: nat)
    requires i < |Strip(text)|
    ensures |CleanText(text)| == |Strip(text)|
    ensures CleanText(text)[i] == if IsolatedNewline(Strip(text), i) then ' ' else Strip(text)[i]
  {
    if i > 0 {
      JoinLinesAt(Strip(text), false, i);
    }
  }

  /** The cleaned text neither starts nor ends with whitespace. */
  lemma CleanTextTrimmed(text: string)
    ensures var r := CleanText(text);
            r == [] || (!IsSpace(r[0]) && !IsSpace(r[|r| - 1]))
  {
    var t := Strip(text);
    if t != [] {
      CleanTextAt(text, 0);
      CleanTextAt(text, |t| - 1);
    }
  }

  /** Cleaning cleaned text changes nothing. */
  lemma CleanTextIdempotent(text: string)
    ensures CleanText(CleanText(text)) == CleanText(text)
  {
    var t := Strip(text);
    var r := CleanText(text);
    CleanTextTrimmed(text);
    StripOfTrimmed(r);
    forall i | 0 <= i < |r|
      ensures CleanText(r)[i] == r[i]
    {
      CleanTextAt(r, i);
      CleanTextAt(text, i);
      if r[i] == '\n' {
        if i > 0 {
          CleanTextAt(text, i - 1);
        }
        if i < |r| - 1 {
          CleanTextAt(text, i + 1);
        }
      }
    }
  }

  // ---------------------------------------------------------------------------
  // format_title
  // ---------------------------------------------------------------------------

  /**
    main.py's `format_title`: drop every `.en.txt`, then build the numbered
    title when the name matches the pattern, and title-case the name (keeping
    its hyphens) when it does not.
   */
  function FormatTitle(filename: string): string {
    var name := RemoveAll(filename, EnTxt);
    match Match(name)
    case Some(g) => NumberedTitle(g)
    case None => Title(name)
  }

  /**
    A name made of a digit run, `_`, and a run of `[A-Za-z0-9-]` that the
    next character does not continue becomes `<number without leading zeros>.
    <Title-Cased Words>`; whatever follows the run is dropped.
   */
  lemma FormatTitleNumbered(filename: string, i: nat, j: nat)
    requires var name := RemoveAll(filename, EnTxt);
             Accepts(name, i, j) && (j == |name| || !IsSlugChar(name[j]))
    ensures var name := RemoveAll(filename, EnTxt);
            FormatTitle(filename)
              == DropLeadingZeros(name[..i]) + ". " + Title(ReplaceChar(name[i + 1..j], '-', ' '))
  {
    var name := RemoveAll(filename, EnTxt);
    MatchAt(name, i, j);
    NumberDropsLeadingZeros(name[..i]);
  }

  /**
    A name the pattern does not match is only title-cased: it keeps its
    length and its hyphens stay exactly where they were.
   */
  lemma FormatTitleFallback(filename: string)
    requires var name := RemoveAll(filename, EnTxt);
             forall i, j :: !Accepts(name, i, j)
    ensures var name := RemoveAll(filename, EnTxt);
            && FormatTitle(filename) == Title(name)
            && |FormatTitle(filename)| == |name|
            && forall k :: 0 <= k < |name| ==> (FormatTitle(filename)[k] == '-' <==> name[k] == '-')
  {
    var name := RemoveAll(filename, EnTxt);
    forall k | 0 <= k < |name|
      ensures Title(name)[k] == '-' <==> name[k] == '-'
    {
      TitleKeepsClasses(name, k);
    }
  }

  /** No proper suffix of `.en.txt` is also a prefix of it. */
  lemma EnTxtIsBorderless()
    ensures Borderless(EnTxt)
  {
    forall m | 0 < m < |EnTxt|
      ensures EnTxt[m..] != EnTxt[..|EnTxt| - m]
    {
      if m == 3 {
        assert EnTxt[m..][1] != EnTxt[..|EnTxt| - m][1];
      } else {
        assert EnTxt[m..][0] != EnTxt[..|EnTxt| - m][0];
      }
    }
  }

  /** A name without a dot holds no `.en.txt`, so the removal leaves it as it is. */
  lemma DotlessKeepsName(s: string)
    requires '.' !in s
    ensures RemoveAll(s, EnTxt) == s
  {
    forall k | 0 <= k <= |s| - |EnTxt|
      ensures !OccursAt(s, EnTxt, k)
    {
      assert s[k..k + |EnTxt|][0] == s[k];
    }
    RemoveAllOfFree(s, EnTxt);
  }

  /** The title of `<stem>.en.txt` is the title of `<stem>`, whatever the stem holds. */
  lemma FormatTitleIgnoresSuffix(stem: string)
    ensures FormatTitle(stem + EnTxt) == FormatTitle(stem)
  {
    EnTxtIsBorderless();
    RemoveAllOfAppended(stem, EnTxt);
  }

  // ---------------------------------------------------------------------------
  // process_txt_to_md, lines 54-59: where a note goes
  // ---------------------------------------------------------------------------

  predicate IsPrefix(base: Path, p: Path) {
    |base| <= |p| && p[..|base|] == base
  }

  /**
    The note path for `txtFile`: the same directory relative to the base
    folder, placed under the vault, with file name `<title>.md`.
   */
  function Destination(baseFolder: Path, vault: Path, txtFile: Path): (md: Path)
    requires IsPrefix(baseFolder, txtFile) && |baseFolder| < |txtFile|
    ensures |md| == |vault| + |txtFile| - |baseFolder|
    ensures md[..|vault|] == vault
    ensures md[|vault|..|md| - 1] == txtFile[|baseFolder|..|txtFile| - 1]
    ensures md[|md| - 1] == FormatTitle(RemoveAll(txtFile[|txtFile| - 1], EnTxt)) + ".md"
  {
    var relativePath := txtFile[|baseFolder|..];
    var relativeDir, fileName := relativePath[..|relativePath| - 1], relativePath[|relativePath| - 1];
    var baseName := RemoveAll(fileName, EnTxt);
    var formattedTitle := FormatTitle(baseName);
    var md := vault + relativeDir + [formattedTitle + ".md"];
    assert md[|vault|..|md| - 1] == relativeDir;
    md
  }

  /** A transcript `<dir>/<stem>.en.txt` becomes the note `<vault>/<dir>/<title of stem>.md`. */
  lemma DestinationOfTranscript(baseFolder: Path, vault: Path, dir: Path, stem: string)
    requires Free(stem, EnTxt)
    ensures Destination(baseFolder, vault, baseFolder + dir + [stem + EnTxt])
              == vault + dir + [FormatTitle(stem) + ".md"]
  {
    var txtFile := baseFolder + dir + [stem + EnTxt];
    assert txtFile[..|baseFolder|] == baseFolder;
    var md := Destination(baseFolder, vault, txtFile);
    EnTxtIsBorderless();
    RemoveAllOfSuffix(stem, EnTxt);
    RemoveAllOfFree(stem, EnTxt);
    assert txtFile[|baseFolder|..|txtFile| - 1] == dir;
    assert md == md[..|vault|] + md[|vault|..|md| - 1] + [md[|md| - 1]];
  }

  // ---------------------------------------------------------------------------
  // process_folder_recursive
  // ---------------------------------------------------------------------------

  /** The `file.endswith(".en.txt")` filter. */
  predicate IsTranscript(file: string) {
    EndsWith(file, EnTxt)
  }

  /** One `(root, dirs, files)` triple of `os.walk`; `dirs` plays no part here. */
  datatype WalkStep = WalkStep(root: Path, files: seq<string>)

  predicate UnderBase(baseFolder: Path, walk: seq<WalkStep>) {
    forall k :: 0 <= k < |walk| ==> IsPrefix(baseFolder, walk[k].root)
  }

  /** The concatenation, in order, of what `f` gives for each element of `xs`. */
  function Concat<T, U>(f: T -> seq<U>, xs: seq<T>): seq<U>
    decreases |xs|
  {
    if xs == [] then [] else Concat(f, xs[..|xs| - 1]) + f(xs[|xs| - 1])
  }

  lemma ConcatPrefix<T, U>(f: T -> seq<U>, xs: seq<T>, k: nat)
    requires k < |xs|
    ensures Concat(f, xs[..k + 1]) == Concat(f, xs[..k]) + f(xs[k])
  {
    var front := xs[..k + 1];
    assert front[..k] == xs[..k] && front[k] == xs[k];
  }

  lemma {:induction false} ConcatCut<T, U>(f: T -> seq<U>, xs: seq<T>, j: nat)
    requires j <= |xs|
    ensures Concat(f, xs) == Concat(f, xs[..j]) + Concat(f, xs[j..])
    decreases |xs|
  {
    if j == |xs| {
      assert xs[..j] == xs && xs[j..] == [];
    } else {
      var n := |xs| - 1;
      var init, rest := xs[..n], xs[j..];
      ConcatCut(f, init, j);
      assert init[..j] == xs[..j] && init[j..] == rest[..|rest| - 1];
      assert rest[|rest| - 1] == xs[n];
    }
  }

  /** The concatenation is what comes before element `k`, what `k` gives, and what comes after. */
  lemma ConcatAround<T, U>(f: T -> seq<U>, xs: seq<T>, k: nat)
    requires k < |xs|
    ensures Concat(f, xs) == Concat(f, xs[..k]) + f(xs[k]) + Concat(f, xs[k + 1..])
  {
    ConcatPrefix(f, xs, k);
    ConcatCut(f, xs, k + 1);
  }

  /** An element of the concatenation comes from some element of `xs`, and every one's are there. */
  lemma {:induction false} ConcatHas<T, U>(f: T -> seq<U>, xs: seq<T>, u: U)
    ensures (u in Concat(f, xs)) <==> exists i :: 0 <= i < |xs| && u in f(xs[i])
    decreases |xs|
  {
    if xs != [] {
      var init := xs[..|xs| - 1];
      ConcatHas(f, init, u);
      assert forall i :: 0 <= i < |init| ==> init[i] == xs[i];
    }
  }

  lemma AppendAssoc<U>(a: seq<U>, b: seq<U>, c: seq<U>)
    ensures a + (b + c) == (a + b) + c
  {
  }

  lemma Regroup<U>(a: seq<U>, c: seq<U>, x: seq<U>, d: seq<U>, b: seq<U>)
    ensures (a + ((c + x) + d)) + b == ((a + c) + x) + (d + b)
  {
  }

  /** What one file of a walk step adds: its full path when it is a transcript, nothing otherwise. */
  function FileCall(root: Path): string -> seq<Path> {
    file => if IsTranscript(file) then [root + [file]] else []
  }

  /** The paths handed to `process_txt_to_md` for the files of one walk step, in order. */
  function FileCalls(root: Path, files: seq<string>): seq<Path> {
    Concat(FileCall(root), files)
  }

  function StepCalls(step: WalkStep): seq<Path> {
    FileCalls(step.root, step.files)
  }

  /** The paths handed to `process_txt_to_md` over a whole walk, in order. */
  function WalkCalls(walk: seq<WalkStep>): seq<Path> {
    Concat(StepCalls, walk)
  }

  /**
    The calls actually made when `process_txt_to_md` raises for exactly the
    paths `fails` holds of: the exception is not caught, so the calls go in
    order up to and including the first one that raises, and none after it.
   */
  function UpToFailure(calls: seq<Path>, fails: Path -> bool): (r: seq<Path>)
    ensures |r| <= |calls| && r == calls[..|r|]
    ensures forall k :: 0 <= k < |r| - 1 ==> !fails(r[k])
    ensures |r| < |calls| ==> r != [] && fails(r[|r| - 1])
    ensures (forall k :: 0 <= k < |calls| ==> !fails(calls[k])) ==> r == calls
    decreases |calls|
  {
    if calls == [] then []
    else if fails(calls[0]) then [calls[0]]
    else
      var rest := UpToFailure(calls[1..], fails);
      assert forall k :: 0 <= k < |calls[1..]| ==> calls[1..][k] == calls[k + 1];
      [calls[0]] + rest
  }

  /** Once a call raises, nothing after it is called. */
  lemma {:induction false} UpToFailureStops(a: seq<Path>, b: seq<Path>, fails: Path -> bool)
    requires a != [] && fails(a[|a| - 1])
    requires forall k :: 0 <= k < |a| - 1 ==> !fails(a[k])
    ensures UpToFailure(a + b, fails) == a
    decreases |a|
  {
    if |a| > 1 {
      assert !fails(a[0]);
      UpToFailureStops(a[1..], b, fails);
      assert (a + b)[1..] == a[1..] + b;
    }
  }

  /**
    The calls over the whole walk are those made before the `i`-th file of
    step `k`, that file's call, and the calls after it.
   */
  lemma WalkCallsAround(walk: seq<WalkStep>, k: nat, i: nat)
    requires k < |walk| && i < |walk[k].files| && IsTranscript(walk[k].files[i])
    ensures var files := walk[k].files;
            WalkCalls(walk)
              == (WalkCalls(walk[..k]) + FileCalls(walk[k].root, files[..i]) + [walk[k].root + [files[i]]])
                 + (FileCalls(walk[k].root, files[i + 1..]) + WalkCalls(walk[k + 1..]))
  {
    var root, files := walk[k].root, walk[k].files;
    ConcatAround(StepCalls, walk, k);
    ConcatAround(FileCall(root), files, i);
    var a, b := WalkCalls(walk[..k]), WalkCalls(walk[k + 1..]);
    var c, d := FileCalls(root, files[..i]), FileCalls(root, files[i + 1..]);
    var x := FileCall(root)(files[i]);
    assert x == [root + [files[i]]];
    assert StepCalls(walk[k]) == (c + x) + d;
    assert WalkCalls(walk) == (a + ((c + x) + d)) + b;
    Regroup(a, c, x, d, b);
  }

  /**
    `process_folder_recursive`: the loop over the walk of the base folder,
    returning the paths it calls `process_txt_to_md` with, in order. That
    call raises for exactly the paths `fails` holds of (a file that cannot be
    read, a failed summary request, a note that cannot be written), and
    nothing catches the exception, so the first such path is the last call.
   */
  method ProcessFolder(walk: seq<WalkStep>, fails: Path -> bool) returns (calls: seq<Path>)
    ensures calls == UpToFailure(WalkCalls(walk), fails)
  {
    calls := [];
    var k := 0;
    while k < |walk|
      invariant 0 <= k <= |walk|
      invariant calls == WalkCalls(walk[..k])
      invariant forall q :: 0 <= q < |calls| ==> !fails(calls[q])
    {
      var root, files := walk[k].root, walk[k].files;
      var i := 0;
      while i < |files|
        invariant 0 <= i <= |files|
        invariant calls == WalkCalls(walk[..k]) + FileCalls(root, files[..i])
        invariant forall q :: 0 <= q < |calls| ==> !fails(calls[q])
      {
        var file := files[i];
        ConcatPrefix(FileCall(root), files, i);
        AppendAssoc(WalkCalls(walk[..k]), FileCalls(root, files[..i]), FileCall(root)(file));
        if EndsWith(file, EnTxt) {
          var fullPath := root + [file];
          calls := calls + [fullPath];
          if fails(fullPath) {
            WalkCallsAround(walk, k, i);
            UpToFailureStops(calls, FileCalls(root, files[i + 1..]) + WalkCalls(walk[k + 1..]), fails);
            return;
          }
        }
        i := i + 1;
      }
      assert files[..i] == files;
      ConcatPrefix(StepCalls, walk, k);
      k := k + 1;
    }
    assert walk[..k] == walk;
  }

  /** Whether the `i`-th file of walk step `k` is a transcript whose full path is `p`. */
  predicate SelectedAt(walk: seq<WalkStep>, k: int, i: int, p: Path) {
    && 0 <= k < |walk| && 0 <= i < |walk[k].files|
    && IsTranscript(walk[k].files[i])
    && p == walk[k].root + [walk[k].files[i]]
  }

  /** A path is called for one walk step exactly when it is a transcript of that step under its root. */
  lemma FileCallsSelect(root: Path, files: seq<string>, p: Path)
    ensures (p in FileCalls(root, files))
              <==> exists i :: 0 <= i < |files| && IsTranscript(files[i]) && p == root + [files[i]]
  {
    ConcatHas(FileCall(root), files, p);
    assert forall i :: 0 <= i < |files| ==>
      (p in FileCall(root)(files[i]) <==> IsTranscript(files[i]) && p == root + [files[i]]);
  }

  lemma WalkCallsSound(walk: seq<WalkStep>, p: Path)
    requires p in WalkCalls(walk)
    ensures exists k, i :: SelectedAt(walk, k, i, p)
  {
    ConcatHas(StepCalls, walk, p);
    var k :| 0 <= k < |walk| && p in StepCalls(walk[k]);
    FileCallsSelect(walk[k].root, walk[k].files, p);
    var i :| 0 <= i < |walk[k].files| && IsTranscript(walk[k].files[i]) && p == walk[k].root + [walk[k].files[i]];
    assert SelectedAt(walk, k, i, p);
  }

  lemma WalkCallsComplete(walk: seq<WalkStep>, k: int, i: int, p: Path)
    requires SelectedAt(walk, k, i, p)
    ensures p in WalkCalls(walk)
  {
    FileCallsSelect(walk[k].root, walk[k].files, p);
    assert p in StepCalls(walk[k]);
    ConcatHas(StepCalls, walk, p);
  }

  /**
    Exactly the files whose names end in `.en.txt`, over every step of the
    walk, are handed to `process_txt_to_md`, each under its full path.
   */
  lemma WalkCallsSelect(walk: seq<WalkStep>, p: Path)
    ensures (p in WalkCalls(walk)) <==> exists k, i :: SelectedAt(walk, k, i, p)
  {
    if p in WalkCalls(walk) {
      WalkCallsSound(walk, p);
    }
    if exists k, i :: SelectedAt(walk, k, i, p) {
      var k, i :| SelectedAt(walk, k, i, p);
      WalkCallsComplete(walk, k, i, p);
    }
  }

  /**
    A walk of the base folder only reaches paths below it, so every path
    handed to `process_txt_to_md` has a note path.
   */
  lemma WalkCallsHaveDestinations(baseFolder: Path, walk: seq<WalkStep>, p: Path)
    requires UnderBase(baseFolder, walk) && p in WalkCalls(walk)
    ensures IsPrefix(baseFolder, p) && |baseFolder| < |p|
  {
    WalkCallsSound(walk, p);
    var k, i :| SelectedAt(walk, k, i, p);
    assert IsPrefix(baseFolder, walk[k].root);
    assert p[..|baseFolder|] == walk[k].root[..|baseFolder|];
  }
}
