/**
  rename.py: `format_title` for directory names, and `rename_folders`, which
  walks a directory tree bottom-up and renames every directory, within its
  own parent, to its formatted name.

  The file system under the base folder is a tree of directories. Each
  directory lists its subdirectories in listing order (the order `os.walk`
  sees them in) and carries a `locked` flag: the operating system refuses
  to move a locked directory. Paths are lists of names relative to the base
  folder.
 */
module Renamer {
  import opened Wrappers
  import opened PyStr
  import opened TitlePattern

  // ---------------------------------------------------------------------------
  // format_title
  // ---------------------------------------------------------------------------

  /**
    rename.py's `format_title`: the numbered title when the name matches the
    pattern, otherwise the name with hyphens turned into spaces, title-cased.
   */
  function FormatTitle(name: string): string {
    match Match(name)
    case Some(g) => NumberedTitle(g)
    case None => Title(ReplaceChar(name, '-', ' '))
  }

  /**
    A name made of a digit run, `_`, and a run of `[A-Za-z0-9-]` that the
    next character does not continue becomes `<number without leading zeros>.
    <Title-Cased Words>`; whatever follows the run is dropped.
   */
  lemma FormatTitleNumbered(name: string, i: nat, j: nat)
    requires Accepts(name, i, j) && (j == |name| || !IsSlugChar(name[j]))
    ensures FormatTitle(name)
              == DropLeadingZeros(name[..i]) + ". " + Title(ReplaceChar(name[i + 1..j], '-', ' '))
  {
    MatchAt(name, i, j);
    NumberDropsLeadingZeros(name[..i]);
  }

  /** A name the pattern does not match gets its hyphens turned into spaces and is title-cased. */
  lemma FormatTitleFallback(name: string)
    requires forall i, j :: !Accepts(name, i, j)
    ensures FormatTitle(name) == Title(ReplaceChar(name, '-', ' '))
    ensures |FormatTitle(name)| == |name| && '-' !in FormatTitle(name)
  {
    HyphenFreeTitle(ReplaceChar(name, '-', ' '));
  }

  /** Title-casing a hyphen-free string leaves it hyphen-free. */
  lemma HyphenFreeTitle(s: string)
    requires '-' !in s
    ensures '-' !in Title(s)
  {
    forall k | 0 <= k < |s|
      ensures Title(s)[k] != '-'
    {
      TitleKeepsClasses(s, k);
    }
  }

  /** The formatted name never holds a hyphen. */
  lemma FormattedHasNoHyphen(name: string)
    ensures '-' !in FormatTitle(name)
  {
    match Match(name)
    case Some(g) =>
      var d := Decimal(DecimalValue(g.number));
      var rest := ReplaceChar(g.slug, '-', ' ');
      HyphenFreeTitle(rest);
      assert FormatTitle(name) == d + ". " + Title(rest);
      assert forall k :: 0 <= k < |d| ==> IsDigit(d[k]);
    case None =>
      HyphenFreeTitle(ReplaceChar(name, '-', ' '));
  }

  /** A digit run that the next character does not continue is the one the scan finds. */
  lemma DigitRunIs(s: string, n: nat)
    requires n <= |s| && AllDigits(s[..n]) && (n < |s| ==> !IsDigit(s[n]))
    ensures DigitRun(s) == n
  {
    var m := DigitRun(s);
    assert forall k :: 0 <= k < n ==> IsDigit(s[k]) by {
      forall k | 0 <= k < n ensures IsDigit(s[k]) { assert s[..n][k] == s[k]; }
    }
    assert forall k :: 0 <= k < m ==> IsDigit(s[k]) by {
      forall k | 0 <= k < m ensures IsDigit(s[k]) { assert s[..m][k] == s[k]; }
    }
  }

  /**
    When `out` agrees with `name` on digits and underscores, and every
    non-hyphen slug character of `out` stands where `name` has a slug
    character, a match of hyphen-free `out` gives one of `name`.
   */
  lemma AcceptsCarriesOver(name: string, out: string)
    requires |out| == |name| && '-' !in out
    requires forall k :: 0 <= k < |name| ==>
               && (IsDigit(out[k]) <==> IsDigit(name[k]))
               && (out[k] == '_' <==> name[k] == '_')
               && (IsSlugChar(out[k]) ==> IsSlugChar(name[k]))
    ensures forall i, j :: Accepts(out, i, j) ==> Accepts(name, i, i + 2)
  {
    forall i, j | Accepts(out, i, j)
      ensures Accepts(name, i, i + 2)
    {
      assert forall k :: 0 <= k < i ==> IsDigit(out[k]) by {
        forall k | 0 <= k < i ensures IsDigit(out[k]) { assert out[..i][k] == out[k]; }
      }
      assert out[i + 1..j][0] == out[i + 1];
      assert name[i + 1..i + 2] == [name[i + 1]];
    }
  }

  /** A formatted name never matches the numbered pattern. */
  lemma FormattedDoesNotMatch(name: string)
    ensures Match(FormatTitle(name)) == None
  {
    var out := FormatTitle(name);
    match Match(name)
    case Some(g) =>
      var d := Decimal(DecimalValue(g.number));
      var rest := Title(ReplaceChar(g.slug, '-', ' '));
      assert out == d + ". " + rest;
      assert out[..|d|] == d;
      DigitRunIs(out, |d|);
    case None =>
      var x := ReplaceChar(name, '-', ' ');
      FormattedHasNoHyphen(name);
      forall k | 0 <= k < |name|
        ensures && (IsDigit(out[k]) <==> IsDigit(name[k]))
                && (out[k] == '_' <==> name[k] == '_')
                && (IsSlugChar(out[k]) ==> IsSlugChar(name[k]))
      {
        TitleKeepsClasses(x, k);
      }
      AcceptsCarriesOver(name, out);
  }

  /**
    Formatting a formatted name changes nothing: its output never matches
    the numbered pattern, holds no hyphen and is already title-cased.
   */
  lemma FormatTitleIdempotent(name: string)
    ensures FormatTitle(FormatTitle(name)) == FormatTitle(name)
  {
    var out := FormatTitle(name);
    FormattedDoesNotMatch(name);
    FormattedHasNoHyphen(name);
    assert ReplaceChar(out, '-', ' ') == out;
    match Match(name)
    case Some(g) =>
      var d := Decimal(DecimalValue(g.number));
      var y := ReplaceChar(g.slug, '-', ' ');
      var head := d + ". ";
      assert out == head + Title(y);
      assert forall k :: 0 <= k < |head| ==> !IsLetter(head[k]) by {
        assert forall k :: 0 <= k < |d| ==> IsDigit(head[k]);
      }
      TitleWithoutLetters(head);
      TitleSplits(head, Title(y));
      TitleIdempotent(y);
    case None =>
      TitleIdempotent(ReplaceChar(name, '-', ' '));
  }

  // ---------------------------------------------------------------------------
  // The directory tree
  // ---------------------------------------------------------------------------

  type Path = seq<string>

  /** A directory: whether it may not be moved, and its subdirectories in listing order. */
  datatype Dir = Dir(locked: bool, entries: seq<Entry>)

  /** A subdirectory, under its name within its parent. */
  datatype Entry = Entry(name: string, dir: Dir)

  function Names(es: seq<Entry>): (ns: seq<string>)
    ensures |ns| == |es| && forall k :: 0 <= k < |es| ==> ns[k] == es[k].name
  {
    seq(|es|, k requires 0 <= k < |es| => es[k].name)
  }

  /** Whether some entry of `es` is called `name`. */
  predicate Holds(es: seq<Entry>, name: string)
    decreases |es|
  {
    es != [] && (es[0].name == name || Holds(es[1..], name))
  }

  /** `Holds` is membership in the list of names. */
  lemma {:induction false} HoldsNames(es: seq<Entry>, name: string)
    ensures Holds(es, name) <==> name in Names(es)
    decreases |es|
  {
    if es != [] {
      HoldsNames(es[1..], name);
      assert Names(es) == [es[0].name] + Names(es[1..]);
    }
  }

  predicate DistinctNames(es: seq<Entry>) {
    forall i, j :: 0 <= i < j < |es| ==> es[i].name != es[j].name
  }

  /** No directory of the tree holds two subdirectories of the same name. */
  predicate Wf(d: Dir)
    decreases d
  {
    && DistinctNames(d.entries)
    && forall k :: 0 <= k < |d.entries| ==> Wf(d.entries[k].dir)
  }

  /** The position of the first entry called `name`. */
  function Find(es: seq<Entry>, name: string): (r: Option<nat>)
    ensures r.Some? ==> r.value < |es| && es[r.value].name == name
    ensures r.Some? ==> forall k :: 0 <= k < r.value ==> es[k].name != name
    ensures r.None? ==> forall k :: 0 <= k < |es| ==> es[k].name != name
  {
    if es == [] then None
    else if es[0].name == name then Some(0)
    else match Find(es[1..], name)
      case None => None
      case Some(k) => Some(k + 1)
  }

  lemma FindDistinct(es: seq<Entry>, k: nat)
    requires DistinctNames(es) && k < |es|
    ensures Find(es, es[k].name) == Some(k)
  {
  }

  /** Renaming nothing: an entry replaced by one of the same name leaves the names alone. */
  lemma SameNames(es: seq<Entry>, k: nat, e: Entry)
    requires k < |es| && e.name == es[k].name
    ensures Names(es[k := e]) == Names(es)
  {
  }

  lemma {:induction false} FindByNames(es: seq<Entry>, es': seq<Entry>, name: string)
    requires Names(es) == Names(es')
    ensures Find(es, name) == Find(es', name)
  {
    var r, r' := Find(es, name), Find(es', name);
    assert |es| == |es'|;
    assert forall k :: 0 <= k < |es| ==> es[k].name == es'[k].name by {
      forall k | 0 <= k < |es| ensures es[k].name == es'[k].name {
        assert Names(es)[k] == Names(es')[k];
      }
    }
  }

  /** The directory at path `p`, if there is one. */
  function Lookup(d: Dir, p: Path): Option<Dir>
    decreases |p|
  {
    if p == [] then Some(d)
    else match Find(d.entries, p[0])
      case None => None
      case Some(k) => Lookup(d.entries[k].dir, p[1..])
  }

  /** `d` with the directory at path `p` replaced by `x`. */
  function Graft(d: Dir, p: Path, x: Dir): Dir
    requires Lookup(d, p).Some?
    decreases |p|
  {
    if p == [] then x
    else
      var k := Find(d.entries, p[0]).value;
      Dir(d.locked, d.entries[k := Entry(p[0], Graft(d.entries[k].dir, p[1..], x))])
  }

  lemma {:induction false} LookupAppend(d: Dir, p: Path, q: Path)
    ensures Lookup(d, p + q) == match Lookup(d, p) case None => None case Some(x) => Lookup(x, q)
    decreases |p|
  {
    if p != [] {
      assert (p + q)[0] == p[0] && (p + q)[1..] == p[1..] + q;
      match Find(d.entries, p[0])
      case None =>
      case Some(k) => LookupAppend(d.entries[k].dir, p[1..], q);
    } else {
      assert p + q == q;
    }
  }

  lemma {:induction false} LookupGraft(d: Dir, p: Path, x: Dir, q: Path)
    requires Lookup(d, p).Some?
    ensures Lookup(Graft(d, p, x), p + q) == Lookup(x, q)
    decreases |p|
  {
    if p == [] {
      assert p + q == q;
    } else {
      var k := Find(d.entries, p[0]).value;
      var c := d.entries[k].dir;
      var c' := Graft(c, p[1..], x);
      var g := Graft(d, p, x);
      assert g.entries == d.entries[k := Entry(p[0], c')];
      SameNames(d.entries, k, Entry(p[0], c'));
      FindByNames(d.entries, g.entries, p[0]);
      var pq := p + q;
      assert pq[0] == p[0] && pq[1..] == p[1..] + q;
      assert Lookup(g, pq) == Lookup(c', p[1..] + q);
      LookupGraft(c, p[1..], x, q);
    }
  }

  /** Grafting below the first step of `p` keeps that step where it was. */
  lemma GraftTop(d: Dir, p: Path, x: Dir)
    requires p != [] && Lookup(d, p).Some?
    ensures var k := Find(d.entries, p[0]).value;
            && Graft(d, p, x).entries == d.entries[k := Entry(p[0], Graft(d.entries[k].dir, p[1..], x))]
            && Find(Graft(d, p, x).entries, p[0]) == Some(k)
  {
    var k := Find(d.entries, p[0]).value;
    var g := Graft(d, p, x);
    SameNames(d.entries, k, Entry(p[0], Graft(d.entries[k].dir, p[1..], x)));
    FindByNames(d.entries, g.entries, p[0]);
  }

  lemma {:induction false} GraftGraft(d: Dir, p: Path, x: Dir, q: Path, y: Dir)
    requires Lookup(d, p).Some? && Lookup(x, q).Some?
    ensures Lookup(Graft(d, p, x), p + q).Some?
    ensures Graft(Graft(d, p, x), p + q, y) == Graft(d, p, Graft(x, q, y))
    decreases |p|
  {
    LookupGraft(d, p, x, q);
    if p == [] {
      assert p + q == q;
    } else {
      var k := Find(d.entries, p[0]).value;
      var c := d.entries[k].dir;
      var g := Graft(d, p, x);
      GraftTop(d, p, x);
      var pq := p + q;
      assert pq[0] == p[0] && pq[1..] == p[1..] + q;
      GraftGraft(c, p[1..], x, q, y);
      var e := Entry(p[0], Graft(c, p[1..], Graft(x, q, y)));
      assert g.entries[k := e] == d.entries[k := e];
    }
  }

  lemma {:induction false} GraftSelf(d: Dir, p: Path)
    requires Lookup(d, p).Some?
    ensures Graft(d, p, Lookup(d, p).value) == d
    decreases |p|
  {
    if p != [] {
      var k := Find(d.entries, p[0]).value;
      GraftSelf(d.entries[k].dir, p[1..]);
      assert d.entries[k := Entry(p[0], d.entries[k].dir)] == d.entries;
    }
  }

  lemma {:induction false} WfLookup(d: Dir, p: Path)
    requires Wf(d) && Lookup(d, p).Some?
    ensures Wf(Lookup(d, p).value)
    decreases |p|
  {
    if p != [] {
      var k := Find(d.entries, p[0]).value;
      WfLookup(d.entries[k].dir, p[1..]);
    }
  }

  lemma {:induction false} WfGraft(d: Dir, p: Path, x: Dir)
    requires Wf(d) && Lookup(d, p).Some? && Wf(x)
    ensures Wf(Graft(d, p, x))
    decreases |p|
  {
    if p != [] {
      var k := Find(d.entries, p[0]).value;
      WfGraft(d.entries[k].dir, p[1..], x);
      var g := Graft(d, p, x);
      assert Names(g.entries) == Names(d.entries);
      assert forall i :: 0 <= i < |g.entries| ==> g.entries[i].name == d.entries[i].name by {
        forall i | 0 <= i < |g.entries| ensures g.entries[i].name == d.entries[i].name {
          assert Names(g.entries)[i] == Names(d.entries)[i];
        }
      }
    }
  }

  /** The tree with its names erased: the locked flags and the nesting of directories. */
  datatype Shape = Shape(locked: bool, kids: seq<Shape>)

  function ShapeOf(d: Dir): Shape
    decreases d
  {
    Shape(d.locked, seq(|d.entries|, k requires 0 <= k < |d.entries| => ShapeOf(d.entries[k].dir)))
  }

  // ---------------------------------------------------------------------------
  // os.rename
  // ---------------------------------------------------------------------------

  /** Why `os.rename` raised. */
  datatype Failure = NotFound | PermissionDenied | TargetExists

  datatype RenameOutcome = Moved(tree: Dir) | Failed(reason: Failure)

  /**
    `os.rename(parent/name, parent/newName)`: it fails when the source is
    missing, when the directory may not be moved, or when the parent already
    holds `newName`; otherwise the directory, with all it holds, takes the
    new name in the same place of its parent's listing.
   */
  function RenameOp(d: Dir, parent: Path, name: string, newName: string): RenameOutcome {
    match Lookup(d, parent)
    case None => Failed(NotFound)
    case Some(p) =>
      match Find(p.entries, name)
      case None => Failed(NotFound)
      case Some(k) =>
        if newName == name then Moved(d)
        else if p.entries[k].dir.locked then Failed(PermissionDenied)
        else if Holds(p.entries, newName) then Failed(TargetExists)
        else Moved(Graft(d, parent, Dir(p.locked, p.entries[k := Entry(newName, p.entries[k].dir)])))
  }

  /** A rename fails as "not found" exactly when the source is missing. */
  lemma RenameNotFound(d: Dir, parent: Path, name: string, newName: string)
    ensures (RenameOp(d, parent, name, newName) == Failed(NotFound))
              <==> Lookup(d, parent + [name]).None?
  {
    LookupAppend(d, parent, [name]);
  }

  /** Renaming the `k`-th entry of a listing to a name it does not hold keeps the names distinct. */
  lemma RenamedListing(es: seq<Entry>, k: nat, newName: string)
    requires DistinctNames(es) && k < |es| && !Holds(es, newName)
    ensures DistinctNames(es[k := Entry(newName, es[k].dir)])
    ensures es[k].name !in Names(es[k := Entry(newName, es[k].dir)])
    ensures Find(es[k := Entry(newName, es[k].dir)], newName) == Some(k)
  {
    var es' := es[k := Entry(newName, es[k].dir)];
    HoldsNames(es, newName);
    forall i, j | 0 <= i < j < |es'| ensures es'[i].name != es'[j].name {
      assert Names(es)[i] == es[i].name;
      assert Names(es)[j] == es[j].name;
    }
    forall i | 0 <= i < |es'| ensures es'[i].name != es[k].name {
      if i != k {
        assert Names(es)[i] == es[i].name;
      }
    }
    FindDistinct(es', k);
  }

  /**
    Giving the `k`-th entry of the directory at `parent` a name its listing
    does not hold: the directory is found under the new name and no longer
    under the old one, and the tree keeps its shape and stays well formed.
   */
  lemma RenameEntry(d: Dir, parent: Path, k: nat, newName: string)
    requires Wf(d) && Lookup(d, parent).Some?
    requires var p := Lookup(d, parent).value; k < |p.entries| && !Holds(p.entries, newName)
    ensures var p := Lookup(d, parent).value;
            var t := Graft(d, parent, Dir(p.locked, p.entries[k := Entry(newName, p.entries[k].dir)]));
            && Wf(t) && ShapeOf(t) == ShapeOf(d)
            && Lookup(t, parent + [newName]) == Some(p.entries[k].dir)
            && Lookup(t, parent + [p.entries[k].name]) == None
  {
    var p := Lookup(d, parent).value;
    var es := p.entries[k := Entry(newName, p.entries[k].dir)];
    var x := Dir(p.locked, es);
    WfLookup(d, parent);
    RenamedListing(p.entries, k, newName);
    WfGraft(d, parent, x);
    LookupGraft(d, parent, x, [newName]);
    LookupGraft(d, parent, x, [p.entries[k].name]);
    assert ShapeOf(x) == ShapeOf(p) by {
      assert forall i :: 0 <= i < |es| ==> es[i].dir == p.entries[i].dir;
    }
    GraftKeepsShape(d, parent, x);
  }

  /**
    When a rename succeeds, the directory that was at `parent/name` is now at
    `parent/newName` and nothing is left at `parent/name`; the tree keeps its
    shape and stays well formed.
   */
  lemma RenameOpEffect(d: Dir, parent: Path, name: string, newName: string)
    requires Wf(d)
    ensures match RenameOp(d, parent, name, newName)
            case Failed(_) => true
            case Moved(t) =>
              && Wf(t) && ShapeOf(t) == ShapeOf(d)
              && Lookup(t, parent + [newName]) == Lookup(d, parent + [name])
              && (newName != name ==> Lookup(t, parent + [name]) == None)
  {
    LookupAppend(d, parent, [name]);
    match Lookup(d, parent)
    case None =>
    case Some(p) =>
      match Find(p.entries, name)
      case None =>
      case Some(k) =>
        if newName != name && !p.entries[k].dir.locked && !Holds(p.entries, newName) {
          RenameEntry(d, parent, k, newName);
        }
  }

  /** Replacing a directory by one of the same shape keeps the tree's shape. */
  lemma {:induction false} GraftKeepsShape(d: Dir, p: Path, x: Dir)
    requires Lookup(d, p).Some? && ShapeOf(x) == ShapeOf(Lookup(d, p).value)
    ensures ShapeOf(Graft(d, p, x)) == ShapeOf(d)
    decreases |p|
  {
    if p != [] {
      var k := Find(d.entries, p[0]).value;
      GraftKeepsShape(d.entries[k].dir, p[1..], x);
      var g := Graft(d, p, x);
      assert forall i :: 0 <= i < |g.entries| ==> ShapeOf(g.entries[i].dir) == ShapeOf(d.entries[i].dir);
      assert ShapeOf(g).kids == ShapeOf(d).kids;
    }
  }

  // ---------------------------------------------------------------------------
  // rename_folders, as a function of the tree it starts from
  // ---------------------------------------------------------------------------
  //
  // The walk is stated for any name formatter `format`; rename.py's is
  // `FormatTitle`, which `FileSystem.RenameFolders` passes. What the walk
  // does with the names depends only on the values `format` returns.

  /** What the loop body does with the `j`-th listed directory, when the listing now reads `es`. */
  datatype Outcome = Skip | Fail(reason: Failure) | Move(newName: string)

  function StepOutcome(format: string -> string, es: seq<Entry>, j: nat): Outcome
    requires j < |es|
  {
    var formatted := format(es[j].name);
    if formatted == es[j].name then Skip
    else if es[j].dir.locked then Fail(PermissionDenied)
    else if Holds(es, formatted) then Fail(TargetExists)
    else Move(formatted)
  }

  function Step(format: string -> string, es: seq<Entry>, j: nat): (r: seq<Entry>)
    requires j < |es|
    ensures |r| == |es| && r[j].dir == es[j].dir
    ensures forall k :: 0 <= k < |es| && k != j ==> r[k] == es[k]
  {
    match StepOutcome(format, es, j)
    case Move(formatted) => es[j := Entry(formatted, es[j].dir)]
    case _ => es
  }

  /**
    The listing after the loop body has run for its first `j` directories. A
    rename only ever changes the name of the entry being handled: entries
    keep their directories and their places, and those not handled yet keep
    their names.
   */
  function Pass(format: string -> string, es: seq<Entry>, j: nat): (r: seq<Entry>)
    requires j <= |es|
    ensures |r| == |es|
    ensures forall k :: 0 <= k < |es| ==> r[k].dir == es[k].dir
    ensures forall k :: j <= k < |es| ==> r[k] == es[k]
    decreases j
  {
    if j == 0 then es else Step(format, Pass(format, es, j - 1), j - 1)
  }

  /** A log line of rename_folders. */
  datatype Message = Renamed(from: Path, to: Path) | Skipped(at: Path) | Error(at: Path, reason: Failure)

  function StepMessage(format: string -> string, es: seq<Entry>, j: nat, parent: Path): Message
    requires j < |es|
  {
    var folderPath := parent + [es[j].name];
    match StepOutcome(format, es, j)
    case Skip => Skipped(folderPath)
    case Fail(reason) => Error(folderPath, reason)
    case Move(formatted) => Renamed(folderPath, parent + [formatted])
  }

  function PassLog(format: string -> string, es: seq<Entry>, j: nat, parent: Path): seq<Message>
    requires j <= |es|
    decreases j
  {
    if j == 0 then [] else PassLog(format, es, j - 1, parent) + [StepMessage(format, Pass(format, es, j - 1), j - 1, parent)]
  }

  /** The listing of `d` once every subdirectory's own subtree has been handled. */
  function Processed(format: string -> string, d: Dir): (es: seq<Entry>)
    ensures |es| == |d.entries|
    decreases d, 0
  {
    seq(|d.entries|, k requires 0 <= k < |d.entries| =>
      Entry(d.entries[k].name, RenameAll(format, d.entries[k].dir)))
  }

  /**
    The tree after `rename_folders`: below each directory, the subtrees
    first, then the directory's own listing in order.
   */
  function RenameAll(format: string -> string, d: Dir): Dir
    decreases d, 1
  {
    Dir(d.locked, Pass(format, Processed(format, d), |d.entries|))
  }

  /** The log lines for the subtrees of the first `i` subdirectories of `d`, at path `at`. */
  function SubtreeLogs(format: string -> string, d: Dir, at: Path, i: nat): seq<Message>
    requires i <= |d.entries|
    decreases d, 0, i
  {
    if i == 0 then []
    else SubtreeLogs(format, d, at, i - 1) + WalkLog(format, d.entries[i - 1].dir, at + [d.entries[i - 1].name])
  }

  /** The log lines `rename_folders` prints for the tree `d` at path `at`, in order. */
  function WalkLog(format: string -> string, d: Dir, at: Path): seq<Message>
    decreases d, 1
  {
    SubtreeLogs(format, d, at, |d.entries|) + PassLog(format, Processed(format, d), |d.entries|, at)
  }

  /** The listing of `d` with the first `i` subtrees handled. */
  function Partial(format: string -> string, d: Dir, i: nat): seq<Entry>
    requires i <= |d.entries|
  {
    Processed(format, d)[..i] + d.entries[i..]
  }

  /** Handling subtrees keeps every name of the listing. */
  lemma PartialNames(format: string -> string, d: Dir, i: nat)
    requires i <= |d.entries|
    ensures |Partial(format, d, i)| == |d.entries|
    ensures forall k :: 0 <= k < |d.entries| ==> Partial(format, d, i)[k].name == d.entries[k].name
    ensures forall k :: i <= k < |d.entries| ==> Partial(format, d, i)[k] == d.entries[k]
  {
  }

  /** Before the walk the listing is as read; after it every subtree is handled. */
  lemma PartialEnds(format: string -> string, d: Dir)
    ensures Partial(format, d, 0) == d.entries && Partial(format, d, |d.entries|) == Processed(format, d)
  {
    assert Processed(format, d)[..0] == [] && d.entries[0..] == d.entries;
    assert Processed(format, d)[..|d.entries|] == Processed(format, d) && d.entries[|d.entries|..] == [];
  }

  lemma SubtreeLogsStep(format: string -> string, d: Dir, at: Path, i: nat)
    requires i < |d.entries|
    ensures SubtreeLogs(format, d, at, i + 1) == SubtreeLogs(format, d, at, i) + WalkLog(format, d.entries[i].dir, at + [d.entries[i].name])
  {
  }

  /**
    One turn of the walk over the subdirectories of `d`, which sits at `at`
    in `t`: the `i`-th subdirectory is still at its original path, and
    handling its subtree there advances the listing by one.
   */
  lemma ChildStep(format: string -> string, t: Dir, at: Path, d: Dir, i: nat)
    requires Lookup(t, at).Some? && DistinctNames(d.entries) && i < |d.entries|
    ensures Names(d.entries)[i] == d.entries[i].name
    ensures Lookup(Graft(t, at, Dir(d.locked, Partial(format, d, i))), at + [d.entries[i].name]) == Some(d.entries[i].dir)
    ensures Graft(Graft(t, at, Dir(d.locked, Partial(format, d, i))), at + [d.entries[i].name], RenameAll(format, d.entries[i].dir))
              == Graft(t, at, Dir(d.locked, Partial(format, d, i + 1)))
  {
    var x := Dir(d.locked, Partial(format, d, i));
    var n := d.entries[i].name;
    var child := d.entries[i].dir;
    PartialNames(format, d, i);
    PartialNames(format, d, i + 1);
    assert Names(x.entries) == Names(d.entries);
    FindByNames(x.entries, d.entries, n);
    FindDistinct(d.entries, i);
    LookupGraft(t, at, x, [n]);
    GraftGraft(t, at, x, [n], RenameAll(format, child));
    assert Graft(x, [n], RenameAll(format, child)).entries == Partial(format, d, i + 1);
  }

  /**
    One turn of the loop body over the listing `es` of the directory at
    `at`, as the script takes it: when the formatted name equals the current
    one the listing stays and a skip is logged; otherwise `os.rename` either
    moves the tree to the next listing and a rename is logged, or fails, the
    listing stays and the failure is logged.
   */
  lemma PassStep(format: string -> string, t: Dir, at: Path, locked: bool, es: seq<Entry>, j: nat, f: string)
    requires Lookup(t, at).Some? && j < |es| && Wf(Graft(t, at, Dir(locked, Pass(format, es, j))))
    requires f == format(es[j].name)
    ensures var x := Pass(format, es, j);
            var n := es[j].name;
            f == n ==>
              && Pass(format, es, j + 1) == x
              && StepMessage(format, x, j, at) == Skipped(at + [n])
    ensures var x := Pass(format, es, j);
            var n := es[j].name;
            f != n ==>
              match RenameOp(Graft(t, at, Dir(locked, x)), at, n, f)
              case Moved(t') =>
                && t' == Graft(t, at, Dir(locked, Pass(format, es, j + 1)))
                && StepMessage(format, x, j, at) == Renamed(at + [n], at + [f])
              case Failed(reason) =>
                && Pass(format, es, j + 1) == x
                && StepMessage(format, x, j, at) == Error(at + [n], reason)
  {
    var x := Dir(locked, Pass(format, es, j));
    var r := Graft(t, at, x);
    var n := es[j].name;
    LookupGraft(t, at, x, []);
    assert at + [] == at;
    WfLookup(r, at);
    assert x.entries[j] == es[j];
    FindDistinct(x.entries, j);
    var y := Dir(locked, Step(format, x.entries, j));
    GraftGraft(t, at, x, [], y);
  }

  // ---------------------------------------------------------------------------
  // The file system, changed in place
  // ---------------------------------------------------------------------------

  class FileSystem {
    var root: Dir

    predicate Valid()
      reads this
    {
      Wf(root)
    }

    constructor (tree: Dir)
      requires Wf(tree)
      ensures Valid() && root == tree
    {
      root := tree;
    }

    /** `os.rename(parent/name, parent/newName)`: `None` when it succeeded, the reason when it raised. */
    method Rename(parent: Path, name: string, newName: string) returns (failure: Option<Failure>)
      requires Valid()
      modifies this
      ensures Valid()
      ensures match RenameOp(old(root), parent, name, newName)
              case Moved(t) => failure == None && root == t
              case Failed(reason) => failure == Some(reason) && root == old(root)
    {
      RenameOpEffect(root, parent, name, newName);
      RenameNotFound(root, parent, name, newName);
      match RenameOp(root, parent, name, newName)
      case Moved(t) =>
        root := t;
        failure := None;
      case Failed(reason) =>
        failure := Some(reason);
    }

    /**
      `rename_folders(base_folder)`: every directory below the base folder
      ends up as `RenameAll` says, and the log is `WalkLog`.
     */
    method RenameFolders() returns (log: seq<Message>)
      requires Valid()
      modifies this
      ensures Valid()
      ensures root == RenameAll(FormatTitle, old(root))
      ensures log == WalkLog(FormatTitle, old(root), [])
    {
      log := Walk(FormatTitle, [], root);
    }

    /**
      The bottom-up walk below `at`: the listing is read first, the
      subdirectories are walked in listing order, and then the loop body of
      `rename_folders` runs for `at` and its listing.
     */
    method Walk(format: string -> string, at: Path, ghost d: Dir) returns (log: seq<Message>)
      requires Valid() && Lookup(root, at) == Some(d)
      modifies this
      ensures Valid()
      ensures root == Graft(old(root), at, RenameAll(format, d))
      ensures log == WalkLog(format, d, at)
      decreases d, 2
    {
      var dirs := Names(Lookup(root, at).value.entries);
      log := WalkSubtrees(format, at, dirs, d);
      ghost var x := Dir(d.locked, Processed(format, d));
      PartialNames(format, d, |dirs|);
      assert Names(x.entries) == dirs;
      LookupGraft(old(root), at, x, []);
      assert at + [] == at;
      var renames := RenameListing(format, at, dirs, d.locked, x.entries);
      GraftGraft(old(root), at, x, [], RenameAll(format, d));
      log := log + renames;
    }

    /** The subtrees of the directory `d` at `at`, walked in the order of its listing `dirs`. */
    method WalkSubtrees(format: string -> string, at: Path, dirs: seq<string>, ghost d: Dir) returns (log: seq<Message>)
      requires Valid() && Lookup(root, at) == Some(d) && dirs == Names(d.entries)
      modifies this
      ensures Valid()
      ensures root == Graft(old(root), at, Dir(d.locked, Processed(format, d)))
      ensures log == SubtreeLogs(format, d, at, |d.entries|)
      decreases d, 1
    {
      WfLookup(root, at);
      GraftSelf(root, at);
      PartialEnds(format, d);
      log := [];
      var i := 0;
      while i < |dirs|
        invariant 0 <= i <= |dirs| == |d.entries|
        invariant Valid()
        invariant root == Graft(old(root), at, Dir(d.locked, Partial(format, d, i)))
        invariant log == SubtreeLogs(format, d, at, i)
      {
        var sub := WalkChild(format, at, dirs, old(root), d, i);
        log := log + sub;
        i := i + 1;
      }
    }

    /** The walk of the subtree of the `i`-th subdirectory of `d`, which sits at `at` in `t`. */
    method WalkChild(format: string -> string, at: Path, dirs: seq<string>, ghost t: Dir, ghost d: Dir, i: nat)
      returns (sub: seq<Message>)
      requires Valid() && Lookup(t, at).Some? && Wf(d) && i < |d.entries| && dirs == Names(d.entries)
      requires root == Graft(t, at, Dir(d.locked, Partial(format, d, i)))
      modifies this
      ensures Valid()
      ensures root == Graft(t, at, Dir(d.locked, Partial(format, d, i + 1)))
      ensures SubtreeLogs(format, d, at, i + 1) == SubtreeLogs(format, d, at, i) + sub
      decreases d, 0
    {
      ChildStep(format, t, at, d, i);
      SubtreeLogsStep(format, d, at, i);
      sub := Walk(format, at + [dirs[i]], d.entries[i].dir);
    }

    /**
      The inner loop of `rename_folders` for the directory at `at`, whose
      listing, with its subtrees handled, reads `es`: each listed name in
      turn is renamed to its formatted name when the two differ.
     */
    method RenameListing(format: string -> string, at: Path, dirs: seq<string>, ghost locked: bool, ghost es: seq<Entry>)
      returns (log: seq<Message>)
      requires Valid() && Lookup(root, at) == Some(Dir(locked, es)) && dirs == Names(es)
      modifies this
      ensures Valid()
      ensures root == Graft(old(root), at, Dir(locked, Pass(format, es, |es|)))
      ensures log == PassLog(format, es, |es|, at)
    {
      GraftSelf(root, at);
      log := [];
      var j := 0;
      while j < |dirs|
        invariant 0 <= j <= |dirs| == |es|
        invariant Valid()
        invariant root == Graft(old(root), at, Dir(locked, Pass(format, es, j)))
        invariant log == PassLog(format, es, j, at)
      {
        assert dirs[j] == es[j].name;
        var message := RenameOne(format, at, dirs[j], old(root), locked, es, j);
        log := log + [message];
        j := j + 1;
      }
    }

    /**
      The loop body for the `j`-th name of the listing: the current and the
      formatted path are built; equal paths are skipped, otherwise
      `os.rename` is tried and its success or its error is logged.
     */
    method RenameOne(format: string -> string, at: Path, folderName: string,
                     ghost t: Dir, ghost locked: bool, ghost es: seq<Entry>, ghost j: nat)
      returns (message: Message)
      requires Valid() && Lookup(t, at).Some? && j < |es| && folderName == es[j].name
      requires root == Graft(t, at, Dir(locked, Pass(format, es, j)))
      modifies this
      ensures Valid()
      ensures root == Graft(t, at, Dir(locked, Pass(format, es, j + 1)))
      ensures message == StepMessage(format, Pass(format, es, j), j, at)
      ensures PassLog(format, es, j + 1, at) == PassLog(format, es, j, at) + [message]
    {
      var folderPath := at + [folderName];
      var formattedName := format(folderName);
      var newFolderPath := at + [formattedName];
      PassStep(format, t, at, locked, es, j, formattedName);
      if folderPath != newFolderPath {
        assert formattedName != folderName;
        var failure := Rename(at, folderName, formattedName);
        if failure == None {
          message := Renamed(folderPath, newFolderPath);
        } else {
          message := Error(folderPath, failure.value);
        }
      } else {
        assert formattedName == folderName by {
          assert folderPath[|at|] == newFolderPath[|at|];
        }
        message := Skipped(folderPath);
      }
    }
  }

  // ---------------------------------------------------------------------------
  // What rename_folders achieves
  // ---------------------------------------------------------------------------

  /** Renaming keeps the tree's shape: the same directories, nested the same way, locked the same way. */
  lemma {:induction false} RenameAllKeepsShape(format: string -> string, d: Dir)
    ensures ShapeOf(RenameAll(format, d)) == ShapeOf(d)
    decreases d
  {
    var r := RenameAll(format, d);
    forall k | 0 <= k < |d.entries|
      ensures ShapeOf(r.entries[k].dir) == ShapeOf(d.entries[k].dir)
    {
      assert r.entries[k].dir == Processed(format, d)[k].dir == RenameAll(format, d.entries[k].dir);
      RenameAllKeepsShape(format, d.entries[k].dir);
    }
    assert ShapeOf(r).kids == ShapeOf(d).kids;
  }

  // ---------------------------------------------------------------------------
  // Trees whose names are already formatted
  // ---------------------------------------------------------------------------

  /** Every name in the tree is already its own formatted name. */
  predicate Settled(format: string -> string, d: Dir)
    decreases d
  {
    forall k :: 0 <= k < |d.entries| ==>
      format(d.entries[k].name) == d.entries[k].name && Settled(format, d.entries[k].dir)
  }

  /** A listing whose names are all formatted is left as it is. */
  lemma {:induction false} PassOfSettled(format: string -> string, es: seq<Entry>, j: nat)
    requires j <= |es|
    requires forall k :: 0 <= k < |es| ==> format(es[k].name) == es[k].name
    ensures Pass(format, es, j) == es
    decreases j
  {
    if j > 0 {
      PassOfSettled(format, es, j - 1);
    }
  }

  /** `rename_folders` leaves a tree whose names are all formatted as it is. */
  lemma {:induction false} SettledIsFixpoint(format: string -> string, d: Dir)
    requires Settled(format, d)
    ensures RenameAll(format, d) == d
    decreases d
  {
    forall k | 0 <= k < |d.entries|
      ensures Processed(format, d)[k] == d.entries[k]
    {
      SettledIsFixpoint(format, d.entries[k].dir);
    }
    assert Processed(format, d) == d.entries;
    PassOfSettled(format, d.entries, |d.entries|);
  }

  /** On such a tree every log line is a skip. */
  lemma {:induction false} SettledLogSkips(format: string -> string, d: Dir, at: Path)
    requires Settled(format, d)
    ensures forall m :: m in WalkLog(format, d, at) ==> m.Skipped?
    decreases d, 1
  {
    SettledSubtreesSkip(format, d, at, |d.entries|);
    var es := Processed(format, d);
    forall k | 0 <= k < |d.entries|
      ensures es[k] == d.entries[k]
    {
      SettledIsFixpoint(format, d.entries[k].dir);
    }
    assert es == d.entries;
    SettledPassSkips(format, es, |es|, at);
  }

  lemma {:induction false} SettledSubtreesSkip(format: string -> string, d: Dir, at: Path, i: nat)
    requires Settled(format, d) && i <= |d.entries|
    ensures forall m :: m in SubtreeLogs(format, d, at, i) ==> m.Skipped?
    decreases d, 0, i
  {
    if i > 0 {
      SettledSubtreesSkip(format, d, at, i - 1);
      SettledLogSkips(format, d.entries[i - 1].dir, at + [d.entries[i - 1].name]);
    }
  }

  lemma {:induction false} SettledPassSkips(format: string -> string, es: seq<Entry>, j: nat, at: Path)
    requires j <= |es|
    requires forall k :: 0 <= k < |es| ==> format(es[k].name) == es[k].name
    ensures forall m :: m in PassLog(format, es, j, at) ==> m.Skipped?
    decreases j
  {
    if j > 0 {
      SettledPassSkips(format, es, j - 1, at);
      PassOfSettled(format, es, j - 1);
    }
  }

  // ---------------------------------------------------------------------------
  // Trees where no rename is refused
  // ---------------------------------------------------------------------------

  /**
    Nothing in the listing stands in a rename's way: a locked directory
    already has its formatted name, and no entry's formatted name equals
    another entry's name or formatted name.
   */
  predicate Unobstructed(format: string -> string, es: seq<Entry>) {
    && (forall k :: 0 <= k < |es| ==> Ready(format, es[k]))
    && (forall j, k {:trigger Apart(format, es[j], es[k])} :: 0 <= j < |es| && 0 <= k < |es| && j != k ==> Apart(format, es[j], es[k]))
  }

  /** A locked directory can only keep its name, so it must already carry its formatted name. */
  predicate Ready(format: string -> string, e: Entry) {
    e.dir.locked ==> format(e.name) == e.name
  }

  /** The formatted name of `a` is neither the name nor the formatted name of `b`. */
  predicate Apart(format: string -> string, a: Entry, b: Entry) {
    format(a.name) != b.name && format(a.name) != format(b.name)
  }

  predicate TreeUnobstructed(format: string -> string, d: Dir)
    decreases d
  {
    && Unobstructed(format, d.entries)
    && forall k :: 0 <= k < |d.entries| ==> TreeUnobstructed(format, d.entries[k].dir)
  }

  /** The tree with every name replaced by its formatted name. */
  function FormatNames(format: string -> string, d: Dir): Dir
    decreases d
  {
    Dir(d.locked, seq(|d.entries|, k requires 0 <= k < |d.entries| =>
      Entry(format(d.entries[k].name), FormatNames(format, d.entries[k].dir))))
  }

  /** On an unobstructed listing, every entry handled so far carries its formatted name. */
  lemma {:induction false} PassUnobstructed(format: string -> string, es: seq<Entry>, j: nat)
    requires j <= |es| && Unobstructed(format, es)
    ensures forall k :: 0 <= k < j ==> Pass(format, es, j)[k].name == format(es[k].name)
    decreases j
  {
    if j > 0 {
      PassUnobstructed(format, es, j - 1);
      var x := Pass(format, es, j - 1);
      var n := es[j - 1].name;
      assert x[j - 1] == es[j - 1];
      assert Ready(format, es[j - 1]);
      if format(n) != n {
        NotTaken(format, es, x, j - 1);
      }
    }
  }

  /**
    In an unobstructed listing whose first `j` entries carry their formatted
    names, the formatted name of the `j`-th entry is held by no entry.
   */
  lemma NotTaken(format: string -> string, es: seq<Entry>, x: seq<Entry>, j: nat)
    requires j < |es| == |x| && Unobstructed(format, es)
    requires forall k :: 0 <= k < j ==> x[k].name == format(es[k].name)
    requires forall k :: j <= k < |es| ==> x[k] == es[k]
    requires format(es[j].name) != es[j].name
    ensures !Holds(x, format(es[j].name))
  {
    var f := format(es[j].name);
    forall k | 0 <= k < |x|
      ensures Names(x)[k] != f
    {
      if k != j {
        assert Apart(format, es[j], es[k]);
      }
      if k < j {
        assert x[k].name == format(es[k].name);
      }
    }
    HoldsNames(x, f);
  }

  /** Where no rename is refused, every directory of the tree ends up under its formatted name. */
  lemma {:induction false} UnobstructedRenamesAll(format: string -> string, d: Dir)
    requires TreeUnobstructed(format, d)
    ensures RenameAll(format, d) == FormatNames(format, d)
    decreases d
  {
    var es := Processed(format, d);
    forall k | 0 <= k < |es|
      ensures es[k].name == d.entries[k].name && es[k].dir.locked == d.entries[k].dir.locked
    {
      assert es[k].dir == RenameAll(format, d.entries[k].dir);
    }
    forall k | 0 <= k < |es|
      ensures Ready(format, es[k])
    {
      assert Ready(format, d.entries[k]);
    }
    forall i, k | 0 <= i < |es| && 0 <= k < |es| && i != k
      ensures Apart(format, es[i], es[k])
    {
      assert Apart(format, d.entries[i], d.entries[k]);
    }
    assert Unobstructed(format, es);
    PassUnobstructed(format, es, |es|);
    var r := RenameAll(format, d);
    forall k | 0 <= k < |d.entries|
      ensures r.entries[k] == FormatNames(format, d).entries[k]
    {
      UnobstructedRenamesAll(format, d.entries[k].dir);
      assert r.entries[k].dir == es[k].dir;
    }
  }

  /** Formatting every name leaves nothing left to format. */
  lemma {:induction false} FormatNamesSettled(format: string -> string, d: Dir)
    requires forall n :: format(format(n)) == format(n)
    ensures Settled(format, FormatNames(format, d))
    decreases d
  {
    var f := FormatNames(format, d);
    forall k | 0 <= k < |d.entries|
      ensures format(f.entries[k].name) == f.entries[k].name && Settled(format, f.entries[k].dir)
    {
      FormatNamesSettled(format, d.entries[k].dir);
    }
  }

  // ---------------------------------------------------------------------------
  // A second run
  // ---------------------------------------------------------------------------

  predicate Formatted(format: string -> string, e: Entry) {
    format(e.name) == e.name
  }

  /**
    Why the `k`-th entry of a listing keeps its name when handled again: it
    is formatted, or it may not be moved, or a formatted entry already holds
    its formatted name.
   */
  predicate Kept(format: string -> string, es: seq<Entry>, k: nat)
    requires k < |es|
  {
    || Formatted(format, es[k])
    || es[k].dir.locked
    || exists m :: 0 <= m < |es| && es[m].name == format(es[k].name) && Formatted(format, es[m])
  }

  /** Every entry of the listing keeps its name when handled again. */
  predicate Stuck(format: string -> string, es: seq<Entry>) {
    forall k :: 0 <= k < |es| ==> Kept(format, es, k)
  }

  /** On a stuck listing, the loop body moves nothing: each entry is skipped or its rename refused. */
  lemma StepOfStuck(format: string -> string, es: seq<Entry>, j: nat)
    requires j < |es| && Stuck(format, es)
    ensures !StepOutcome(format, es, j).Move?
  {
    var f := format(es[j].name);
    assert Kept(format, es, j);
    if f != es[j].name && !es[j].dir.locked {
      var m :| 0 <= m < |es| && es[m].name == f && Formatted(format, es[m]);
      assert Names(es)[m] == f;
      HoldsNames(es, f);
    }
  }

  /** A stuck listing is left as it is. */
  lemma {:induction false} PassOfStuck(format: string -> string, es: seq<Entry>, j: nat)
    requires j <= |es| && Stuck(format, es)
    ensures Pass(format, es, j) == es
    decreases j
  {
    if j > 0 {
      PassOfStuck(format, es, j - 1);
      StepOfStuck(format, es, j - 1);
    }
  }

  /** A second pass over a stuck listing logs no rename. */
  lemma {:induction false} PassLogOfStuck(format: string -> string, es: seq<Entry>, j: nat, at: Path)
    requires j <= |es| && Stuck(format, es)
    ensures forall m :: m in PassLog(format, es, j, at) ==> !m.Renamed?
    decreases j
  {
    if j > 0 {
      PassLogOfStuck(format, es, j - 1, at);
      PassOfStuck(format, es, j - 1);
      StepOfStuck(format, es, j - 1);
    }
  }

  /**
    With an idempotent formatter, one turn of the loop body keeps every
    entry handled so far, and the one it handles, from being renamed again.
   */
  lemma StepKeeps(format: string -> string, x: seq<Entry>, j: nat)
    requires forall n :: format(format(n)) == format(n)
    requires j < |x| && forall k :: 0 <= k < j ==> Kept(format, x, k)
    ensures forall k :: 0 <= k <= j ==> Kept(format, Step(format, x, j), k)
  {
    var y := Step(format, x, j);
    var f := format(x[j].name);
    match StepOutcome(format, x, j)
    case Move(g) =>
      assert y[j].name == f && format(f) == f;
      assert Kept(format, y, j);
      assert Formatted(format, x[j]) == false;
      forall k | 0 <= k < j
        ensures Kept(format, y, k)
      {
        assert y[k] == x[k];
        assert Kept(format, x, k);
        if !Formatted(format, x[k]) && !x[k].dir.locked {
          var m :| 0 <= m < |x| && x[m].name == format(x[k].name) && Formatted(format, x[m]);
          assert m != j;
          assert y[m] == x[m];
        }
      }
    case Skip =>
      assert Formatted(format, x[j]);
    case Fail(reason) =>
      if !x[j].dir.locked {
        assert Holds(x, f);
        HoldsNames(x, f);
        var m :| 0 <= m < |x| && Names(x)[m] == f;
        assert x[m].name == f && Formatted(format, x[m]);
      }
  }

  /** After the first `j` turns of the loop body, none of the entries handled would be renamed again. */
  lemma {:induction false} PassKeeps(format: string -> string, es: seq<Entry>, j: nat)
    requires forall n :: format(format(n)) == format(n)
    requires j <= |es|
    ensures forall k :: 0 <= k < j ==> Kept(format, Pass(format, es, j), k)
    decreases j
  {
    if j > 0 {
      PassKeeps(format, es, j - 1);
      StepKeeps(format, Pass(format, es, j - 1), j - 1);
    }
  }

  /** Walking a renamed tree's subtrees again changes none of them. */
  lemma ProcessedOfRenamed(format: string -> string, d: Dir)
    requires forall n :: format(format(n)) == format(n)
    ensures Processed(format, RenameAll(format, d)) == RenameAll(format, d).entries
    decreases d, 0
  {
    var r := RenameAll(format, d);
    forall k | 0 <= k < |r.entries|
      ensures Processed(format, r)[k] == r.entries[k]
    {
      assert r.entries[k].dir == Processed(format, d)[k].dir == RenameAll(format, d.entries[k].dir);
      RenameAllIdempotent(format, d.entries[k].dir);
    }
  }

  /**
    With an idempotent formatter, running `rename_folders` a second time
    changes nothing, on every tree: a name the first run left unformatted
    belongs to a directory that may not be moved, or its formatted name is
    held by a sibling whose name is formatted and so stays.
   */
  lemma {:induction false} RenameAllIdempotent(format: string -> string, d: Dir)
    requires forall n :: format(format(n)) == format(n)
    ensures RenameAll(format, RenameAll(format, d)) == RenameAll(format, d)
    decreases d, 1
  {
    var r := RenameAll(format, d);
    ProcessedOfRenamed(format, d);
    PassKeeps(format, Processed(format, d), |d.entries|);
    PassOfStuck(format, r.entries, |r.entries|);
  }

  predicate NoRenames(log: seq<Message>) {
    forall m :: m in log ==> !m.Renamed?
  }

  /** With an idempotent formatter, a second run of `rename_folders` renames nothing, on every tree. */
  lemma {:induction false} SecondRunMovesNothing(format: string -> string, d: Dir, at: Path)
    requires forall n :: format(format(n)) == format(n)
    ensures forall m :: m in WalkLog(format, RenameAll(format, d), at) ==> !m.Renamed?
    decreases d
  {
    var r := RenameAll(format, d);
    ProcessedOfRenamed(format, d);
    PassKeeps(format, Processed(format, d), |d.entries|);
    PassLogOfStuck(format, r.entries, |r.entries|, at);
    forall k | 0 <= k < |r.entries|
      ensures ChildMovesNothing(format, r, at, k)
    {
      assert r.entries[k].dir == RenameAll(format, d.entries[k].dir);
      SecondRunMovesNothing(format, d.entries[k].dir, at + [r.entries[k].name]);
    }
    SubtreesMoveNothing(format, r, at, |r.entries|);
  }

  /** The walk below the `k`-th subdirectory of `d` renames nothing. */
  predicate ChildMovesNothing(format: string -> string, d: Dir, at: Path, k: nat)
    requires k < |d.entries|
  {
    NoRenames(WalkLog(format, d.entries[k].dir, at + [d.entries[k].name]))
  }

  /** The subtree logs of a directory rename nothing when none of its children's walks does. */
  lemma {:induction false} SubtreesMoveNothing(format: string -> string, d: Dir, at: Path, i: nat)
    requires i <= |d.entries|
    requires forall k :: 0 <= k < i ==> ChildMovesNothing(format, d, at, k)
    ensures NoRenames(SubtreeLogs(format, d, at, i))
    decreases i
  {
    if i > 0 {
      var prev, sub := SubtreeLogs(format, d, at, i - 1), WalkLog(format, d.entries[i - 1].dir, at + [d.entries[i - 1].name]);
      SubtreesMoveNothing(format, d, at, i - 1);
      assert ChildMovesNothing(format, d, at, i - 1);
      assert NoRenames(sub);
      assert NoRenames(prev);
      SubtreeLogsStep(format, d, at, i - 1);
      NoRenamesAppend(prev, sub);
    }
  }

  lemma NoRenamesAppend(a: seq<Message>, b: seq<Message>)
    requires NoRenames(a) && NoRenames(b)
    ensures NoRenames(a + b)
  {
  }

  /**
    Where no rename is refused and formatting a formatted name changes
    nothing, every line of a second run of `rename_folders` is a skip.
   */
  lemma SecondRunSkips(format: string -> string, d: Dir, at: Path)
    requires forall n :: format(format(n)) == format(n)
    requires TreeUnobstructed(format, d)
    ensures forall m :: m in WalkLog(format, RenameAll(format, d), at) ==> m.Skipped?
  {
    UnobstructedRenamesAll(format, d);
    FormatNamesSettled(format, d);
    SettledLogSkips(format, FormatNames(format, d), at);
  }

  // ---------------------------------------------------------------------------
  // A second run, whatever order the listings come in
  // ---------------------------------------------------------------------------

  // After a rename, the operating system may list a directory in another
  // order than before (by name, or by a hash of the name). `Relisted(d, e)`
  // says that `e` holds the same directories as `d`, under the same names,
  // each listing in any order.

  predicate Relisted(d: Dir, e: Dir)
    decreases d, 2
  {
    && e.locked == d.locked
    && (forall j :: 0 <= j < |e.entries| ==> ListedBefore(d, e, j))
    && (forall i :: 0 <= i < |d.entries| ==> ListedAfter(d, e, i))
  }

  /** The `j`-th entry of `e` has a partner in `d`. */
  predicate ListedBefore(d: Dir, e: Dir, j: int)
    decreases d, 1
  {
    exists i :: 0 <= i < |d.entries| && Paired(d, e, i, j)
  }

  /** The `i`-th entry of `d` has a partner in `e`. */
  predicate ListedAfter(d: Dir, e: Dir, i: int)
    decreases d, 1
  {
    exists j :: 0 <= j < |e.entries| && Paired(d, e, i, j)
  }

  /** The `i`-th entry of `d` and the `j`-th entry of `e` have the same name and relisted subtrees. */
  predicate Paired(d: Dir, e: Dir, i: int, j: int)
    decreases d, 0
  {
    && 0 <= i < |d.entries| && 0 <= j < |e.entries|
    && e.entries[j].name == d.entries[i].name
    && Relisted(d.entries[i].dir, e.entries[j].dir)
  }

  /** Every tree is a relisting of itself, so the order `RenameOp` keeps is one of the orders covered. */
  lemma {:induction false} RelistedSelf(d: Dir)
    ensures Relisted(d, d)
    decreases d
  {
    forall k | 0 <= k < |d.entries|
      ensures ListedBefore(d, d, k) && ListedAfter(d, d, k)
    {
      RelistedSelf(d.entries[k].dir);
      assert Paired(d, d, k, k);
    }
  }

  /** Listing a directory's entries in another order relists it. */
  lemma PermutedIsRelisted(d: Dir, es: seq<Entry>)
    requires multiset(es) == multiset(d.entries)
    ensures Relisted(d, Dir(d.locked, es))
  {
    var e := Dir(d.locked, es);
    forall j | 0 <= j < |es|
      ensures ListedBefore(d, e, j)
    {
      assert es[j] in multiset(d.entries);
      var i :| 0 <= i < |d.entries| && d.entries[i] == es[j];
      RelistedSelf(es[j].dir);
      assert Paired(d, e, i, j);
    }
    forall i | 0 <= i < |d.entries|
      ensures ListedAfter(d, e, i)
    {
      assert d.entries[i] in multiset(es);
      var j :| 0 <= j < |es| && es[j] == d.entries[i];
      RelistedSelf(es[j].dir);
      assert Paired(d, e, i, j);
    }
  }

  /** Every listing of the tree is stuck. */
  predicate TreeStuck(format: string -> string, d: Dir)
    decreases d
  {
    && Stuck(format, d.entries)
    && forall k :: 0 <= k < |d.entries| ==> TreeStuck(format, d.entries[k].dir)
  }

  lemma {:induction false} ProcessedOfStuck(format: string -> string, d: Dir)
    requires TreeStuck(format, d)
    ensures Processed(format, d) == d.entries
    decreases d, 0
  {
    forall k | 0 <= k < |d.entries|
      ensures Processed(format, d)[k] == d.entries[k]
    {
      StuckIsFixpoint(format, d.entries[k].dir);
    }
  }

  /** `rename_folders` leaves a tree whose listings are all stuck exactly as it is. */
  lemma {:induction false} StuckIsFixpoint(format: string -> string, d: Dir)
    requires TreeStuck(format, d)
    ensures RenameAll(format, d) == d
    decreases d, 1
  {
    ProcessedOfStuck(format, d);
    PassOfStuck(format, d.entries, |d.entries|);
  }

  /** On a tree whose listings are all stuck, `rename_folders` logs no rename. */
  lemma {:induction false} StuckLogMovesNothing(format: string -> string, d: Dir, at: Path)
    requires TreeStuck(format, d)
    ensures NoRenames(WalkLog(format, d, at))
    decreases d
  {
    ProcessedOfStuck(format, d);
    PassLogOfStuck(format, d.entries, |d.entries|, at);
    forall k | 0 <= k < |d.entries|
      ensures ChildMovesNothing(format, d, at, k)
    {
      StuckLogMovesNothing(format, d.entries[k].dir, at + [d.entries[k].name]);
    }
    SubtreesMoveNothing(format, d, at, |d.entries|);
    NoRenamesAppend(SubtreeLogs(format, d, at, |d.entries|), PassLog(format, d.entries, |d.entries|, at));
  }

  /** With an idempotent formatter, every listing of a renamed tree is stuck. */
  lemma {:induction false} RenamedIsStuck(format: string -> string, d: Dir)
    requires forall n :: format(format(n)) == format(n)
    ensures TreeStuck(format, RenameAll(format, d))
    decreases d
  {
    var r := RenameAll(format, d);
    PassKeeps(format, Processed(format, d), |d.entries|);
    assert Stuck(format, r.entries);
    forall k | 0 <= k < |r.entries|
      ensures TreeStuck(format, r.entries[k].dir)
    {
      assert r.entries[k].dir == Processed(format, d)[k].dir == RenameAll(format, d.entries[k].dir);
      RenamedIsStuck(format, d.entries[k].dir);
    }
  }

  /**
    Being stuck does not depend on the listing order: whether an entry is
    formatted or locked is its own affair, and a blocking sibling is still
    listed, whatever its place.
   */
  lemma {:induction false} StuckRelisted(format: string -> string, d: Dir, e: Dir)
    requires TreeStuck(format, d) && Relisted(d, e)
    ensures TreeStuck(format, e)
    decreases d
  {
    forall j | 0 <= j < |e.entries|
      ensures Kept(format, e.entries, j) && TreeStuck(format, e.entries[j].dir)
    {
      assert ListedBefore(d, e, j);
      var i :| 0 <= i < |d.entries| && Paired(d, e, i, j);
      assert Kept(format, d.entries, i);
      if !Formatted(format, d.entries[i]) && !d.entries[i].dir.locked {
        var m :| 0 <= m < |d.entries| && d.entries[m].name == format(d.entries[i].name)
                 && Formatted(format, d.entries[m]);
        assert ListedAfter(d, e, m);
        var n :| 0 <= n < |e.entries| && Paired(d, e, m, n);
        assert Formatted(format, e.entries[n]);
      }
      StuckRelisted(format, d.entries[i].dir, e.entries[j].dir);
    }
  }

  /** Having only formatted names does not depend on the listing order either. */
  lemma {:induction false} SettledRelisted(format: string -> string, d: Dir, e: Dir)
    requires Settled(format, d) && Relisted(d, e)
    ensures Settled(format, e)
    decreases d
  {
    forall j | 0 <= j < |e.entries|
      ensures format(e.entries[j].name) == e.entries[j].name && Settled(format, e.entries[j].dir)
    {
      assert ListedBefore(d, e, j);
      var i :| 0 <= i < |d.entries| && Paired(d, e, i, j);
      SettledRelisted(format, d.entries[i].dir, e.entries[j].dir);
    }
  }

  /**
    With an idempotent formatter, a second run of `rename_folders` changes
    nothing and renames nothing, on every tree, whatever order the operating
    system lists the renamed directories in.
   */
  lemma SecondRunInAnyOrder(format: string -> string, d: Dir, e: Dir, at: Path)
    requires forall n :: format(format(n)) == format(n)
    requires Relisted(RenameAll(format, d), e)
    ensures RenameAll(format, e) == e
    ensures forall m :: m in WalkLog(format, e, at) ==> !m.Renamed?
  {
    RenamedIsStuck(format, d);
    StuckRelisted(format, RenameAll(format, d), e);
    StuckIsFixpoint(format, e);
    StuckLogMovesNothing(format, e, at);
  }

  /**
    Where no rename is refused, every line of a second run is a skip, in
    whatever order the renamed directories are listed.
   */
  lemma SecondRunSkipsInAnyOrder(format: string -> string, d: Dir, e: Dir, at: Path)
    requires forall n :: format(format(n)) == format(n)
    requires TreeUnobstructed(format, d) && Relisted(RenameAll(format, d), e)
    ensures forall m :: m in WalkLog(format, e, at) ==> m.Skipped?
  {
    UnobstructedRenamesAll(format, d);
    FormatNamesSettled(format, d);
    SettledRelisted(format, FormatNames(format, d), e);
    SettledLogSkips(format, e, at);
  }

  /**
    With rename.py's own `format_title`, a second run of `rename_folders`
    over the renamed tree, listed in any order, changes nothing and renames
    nothing; where no rename was refused, it only skips.
   */
  lemma RenameFoldersRerun(d: Dir, e: Dir, at: Path)
    requires Relisted(RenameAll(FormatTitle, d), e)
    ensures RenameAll(FormatTitle, e) == e
    ensures forall m :: m in WalkLog(FormatTitle, e, at) ==> !m.Renamed?
    ensures TreeUnobstructed(FormatTitle, d) ==> forall m :: m in WalkLog(FormatTitle, e, at) ==> m.Skipped?
  {
    forall n
      ensures FormatTitle(FormatTitle(n)) == FormatTitle(n)
    {
      FormatTitleIdempotent(n);
    }
    SecondRunInAnyOrder(FormatTitle, d, e, at);
    if TreeUnobstructed(FormatTitle, d) {
      SecondRunSkipsInAnyOrder(FormatTitle, d, e, at);
    }
  }

  /**
    With rename.py's own `format_title`, a second run of `rename_folders`
    changes nothing and renames nothing, whatever the tree.
   */
  lemma RenameFoldersIdempotent(d: Dir, at: Path)
    ensures RenameAll(FormatTitle, RenameAll(FormatTitle, d)) == RenameAll(FormatTitle, d)
    ensures forall m :: m in WalkLog(FormatTitle, RenameAll(FormatTitle, d), at) ==> !m.Renamed?
  {
    forall n
      ensures FormatTitle(FormatTitle(n)) == FormatTitle(n)
    {
      FormatTitleIdempotent(n);
    }
    RenameAllIdempotent(FormatTitle, d);
    SecondRunMovesNothing(FormatTitle, d, at);
  }

  /**
    With rename.py's own `format_title`, where no rename is refused, every
    directory ends up under its formatted name, and a second run changes
    nothing and only skips.
   */
  lemma RenameFoldersTwice(d: Dir, at: Path)
    requires TreeUnobstructed(FormatTitle, d)
    ensures RenameAll(FormatTitle, d) == FormatNames(FormatTitle, d)
    ensures RenameAll(FormatTitle, RenameAll(FormatTitle, d)) == RenameAll(FormatTitle, d)
    ensures forall m :: m in WalkLog(FormatTitle, RenameAll(FormatTitle, d), at) ==> m.Skipped?
  {
    forall n
      ensures FormatTitle(FormatTitle(n)) == FormatTitle(n)
    {
      FormatTitleIdempotent(n);
    }
    UnobstructedRenamesAll(FormatTitle, d);
    RenameAllIdempotent(FormatTitle, d);
    SecondRunSkips(FormatTitle, d, at);
  }

  // ---------------------------------------------------------------------------
  // What the log says
  // ---------------------------------------------------------------------------

  /** The path a log line is about. */
  function Source(m: Message): Path {
    match m
    case Renamed(from, _) => from
    case Skipped(p) => p
    case Error(p, _) => p
  }

  /**
    What a log line says about its own directory: a rename changes only the
    last segment, to its formatted name, which differs from it; a skip is
    for a name already formatted; a failure is never "not found".
   */
  predicate Faithful(format: string -> string, m: Message) {
    match m
    case Renamed(from, to) =>
      && from != [] && |to| == |from| && to[..|to| - 1] == from[..|from| - 1]
      && to[|to| - 1] == format(from[|from| - 1]) && to[|to| - 1] != from[|from| - 1]
    case Skipped(p) => p != [] && format(p[|p| - 1]) == p[|p| - 1]
    case Error(p, reason) => p != [] && reason != NotFound && format(p[|p| - 1]) != p[|p| - 1]
  }

  /**
    The line is about a directory of the tree `d` found at `at`, under the
    path it had before the walk started.
   */
  predicate Within(d: Dir, at: Path, m: Message) {
    |at| < |Source(m)| && Source(m)[..|at|] == at && Lookup(d, Source(m)[|at|..]).Some?
  }

  /** Every line of `log` passes the test `ok`. */
  predicate AllLines(ok: Message -> bool, log: seq<Message>)
    decreases |log|
  {
    log != [] ==> ok(log[0]) && AllLines(ok, log[1..])
  }

  lemma {:induction false} AllLinesAt(ok: Message -> bool, log: seq<Message>, i: nat)
    requires AllLines(ok, log) && i < |log|
    ensures ok(log[i])
    decreases i
  {
    if i > 0 {
      AllLinesAt(ok, log[1..], i - 1);
    }
  }

  lemma {:induction false} AllLinesAppend(ok: Message -> bool, a: seq<Message>, b: seq<Message>)
    requires AllLines(ok, a) && AllLines(ok, b)
    ensures AllLines(ok, a + b)
    decreases |a|
  {
    if a == [] {
      assert a + b == b;
    } else {
      AllLinesAppend(ok, a[1..], b);
      assert (a + b)[1..] == a[1..] + b;
    }
  }

  lemma AllLinesSnoc(ok: Message -> bool, log: seq<Message>, m: Message)
    requires AllLines(ok, log) && ok(m)
    ensures AllLines(ok, log + [m])
  {
    assert [m][1..] == [];
    AllLinesAppend(ok, log, [m]);
  }

  /** The test for a line logged while walking the tree `d` at path `at`. */
  function LineTest(format: string -> string, d: Dir, at: Path): Message -> bool {
    m => Faithful(format, m) && Within(d, at, m)
  }

  /** A line about the subtree of the `k`-th subdirectory is about the tree above it too. */
  lemma WithinLift(d: Dir, k: nat, at: Path, m: Message)
    requires DistinctNames(d.entries) && k < |d.entries|
    requires Within(d.entries[k].dir, at + [d.entries[k].name], m)
    ensures Within(d, at, m)
  {
    PathLift(d, k, at, Source(m));
  }

  /** A path through the `k`-th subdirectory of `d`, seen from `d`. */
  lemma PathLift(d: Dir, k: nat, at: Path, s: Path)
    requires DistinctNames(d.entries) && k < |d.entries|
    requires var at' := at + [d.entries[k].name];
             |at'| < |s| && s[..|at'|] == at' && Lookup(d.entries[k].dir, s[|at'|..]).Some?
    ensures |at| < |s| && s[..|at|] == at && Lookup(d, s[|at|..]).Some?
  {
    var n := d.entries[k].name;
    var at' := at + [n];
    FindDistinct(d.entries, k);
    assert s[..|at|] == at'[..|at|] == at;
    var p := s[|at|..];
    assert p[0] == n && p[1..] == s[|at'|..];
  }

  lemma {:induction false} LinesLift(format: string -> string, d: Dir, k: nat, at: Path, log: seq<Message>)
    requires DistinctNames(d.entries) && k < |d.entries|
    requires AllLines(LineTest(format, d.entries[k].dir, at + [d.entries[k].name]), log)
    ensures AllLines(LineTest(format, d, at), log)
    decreases |log|
  {
    if log != [] {
      assert LineTest(format, d.entries[k].dir, at + [d.entries[k].name])(log[0]);
      WithinLift(d, k, at, log[0]);
      LinesLift(format, d, k, at, log[1..]);
    }
  }

  /** A line about the `j`-th listed name of `d` is about a directory of `d`. */
  lemma ListedWithin(d: Dir, at: Path, j: nat, m: Message)
    requires j < |d.entries| && Source(m) == at + [d.entries[j].name]
    ensures Within(d, at, m)
  {
    var n := d.entries[j].name;
    var p := at + [n];
    assert p[..|at|] == at && p[|at|..] == [n] && [n][1..] == [];
    assert Find(d.entries, n).Some?;
  }

  /** The line logged for the `j`-th entry of a listing `es` is faithful and about that entry. */
  lemma StepMessageLine(format: string -> string, es: seq<Entry>, j: nat, at: Path)
    requires j < |es|
    ensures var m := StepMessage(format, es, j, at);
            Faithful(format, m) && Source(m) == at + [es[j].name]
  {
    var n := es[j].name;
    var p := at + [n];
    assert p != [] && p[|p| - 1] == n && p[..|p| - 1] == at;
    match StepOutcome(format, es, j)
    case Skip =>
    case Fail(reason) =>
    case Move(f) =>
      var p' := at + [f];
      assert p'[|p'| - 1] == f && p'[..|p'| - 1] == at;
  }

  /** The log of a pass passes a test that every line of it passes. */
  lemma {:induction false} PassLogLines(ok: Message -> bool, format: string -> string, es: seq<Entry>, j: nat, at: Path)
    requires j <= |es|
    requires forall k :: 0 <= k < j ==> ok(StepMessage(format, Pass(format, es, k), k, at))
    ensures AllLines(ok, PassLog(format, es, j, at))
    decreases j
  {
    if j > 0 {
      var m := StepMessage(format, Pass(format, es, j - 1), j - 1, at);
      PassLogLines(ok, format, es, j - 1, at);
      assert ok(m);
      AllLinesSnoc(ok, PassLog(format, es, j - 1, at), m);
    }
  }

  lemma PassLogFaithful(format: string -> string, d: Dir, at: Path)
    ensures AllLines(LineTest(format, d, at), PassLog(format, Processed(format, d), |d.entries|, at))
  {
    var es := Processed(format, d);
    forall k | 0 <= k < |d.entries|
      ensures LineTest(format, d, at)(StepMessage(format, Pass(format, es, k), k, at))
    {
      var x := Pass(format, es, k);
      var m := StepMessage(format, x, k, at);
      StepMessageLine(format, x, k, at);
      assert x[k].name == d.entries[k].name;
      ListedWithin(d, at, k, m);
    }
    PassLogLines(LineTest(format, d, at), format, es, |d.entries|, at);
  }

  lemma {:induction false} SubtreeLogsFaithful(format: string -> string, d: Dir, at: Path, i: nat)
    requires Wf(d) && i <= |d.entries|
    ensures AllLines(LineTest(format, d, at), SubtreeLogs(format, d, at, i))
    decreases d, 0, i
  {
    if i > 0 {
      var ok := LineTest(format, d, at);
      var prev := SubtreeLogs(format, d, at, i - 1);
      var sub := WalkLog(format, d.entries[i - 1].dir, at + [d.entries[i - 1].name]);
      SubtreeLogsFaithful(format, d, at, i - 1);
      assert AllLines(ok, prev);
      ChildLinesFaithful(format, d, at, i - 1);
      assert AllLines(ok, sub);
      SubtreeLogsStep(format, d, at, i - 1);
      AllLinesAppend(ok, prev, sub);
    }
  }

  /** The lines logged for the subtree of the `k`-th subdirectory are about directories of `d`. */
  lemma {:induction false} ChildLinesFaithful(format: string -> string, d: Dir, at: Path, k: nat)
    requires Wf(d) && k < |d.entries|
    ensures AllLines(LineTest(format, d, at), WalkLog(format, d.entries[k].dir, at + [d.entries[k].name]))
    decreases d, 0, k
  {
    var c := d.entries[k].dir;
    WalkLogFaithful(format, c, at + [d.entries[k].name]);
    LinesLift(format, d, k, at, WalkLog(format, c, at + [d.entries[k].name]));
  }

  /**
    Every line `rename_folders` logs for the tree `d` at `at` is faithful, and
    is about a directory that exists in `d` under the path computed for it:
    walking bottom-up, no directory is renamed before the paths below it have
    been used, so the rename of a path that no longer exists never happens.
   */
  lemma {:induction false} WalkLogFaithful(format: string -> string, d: Dir, at: Path)
    requires Wf(d)
    ensures AllLines(LineTest(format, d, at), WalkLog(format, d, at))
    decreases d, 1
  {
    SubtreeLogsFaithful(format, d, at, |d.entries|);
    PassLogFaithful(format, d, at);
    AllLinesAppend(LineTest(format, d, at), SubtreeLogs(format, d, at, |d.entries|),
                   PassLog(format, Processed(format, d), |d.entries|, at));
  }

  /**
    `rename_folders` with rename.py's own `format_title`: every logged rename
    changes only the last segment of a path that existed before the run, to
    its formatted name; every skip is for a name already formatted; no error
    is "not found".
   */
  lemma RenameFoldersLog(d: Dir)
    requires Wf(d)
    ensures var log := WalkLog(FormatTitle, d, []);
            forall i :: 0 <= i < |log| ==> Faithful(FormatTitle, log[i]) && Within(d, [], log[i])
  {
    var log := WalkLog(FormatTitle, d, []);
    WalkLogFaithful(FormatTitle, d, []);
    forall i | 0 <= i < |log|
      ensures Faithful(FormatTitle, log[i]) && Within(d, [], log[i])
    {
      AllLinesAt(LineTest(FormatTitle, d, []), log, i);
    }
  }
}
