/** Snapshot paths: lexical cleaning, containment, and the projection of snapshot roots on an allowlist. */
module Paths {
  import opened Basics

  const MAX_PATH_BYTES := 4096

  /** Unicode category Cc, the test behind `unicode.IsControl`. */
  predicate IsControl(c: char) {
    c < ' ' || '\U{7f}' <= c <= '\U{9f}'
  }

  // ---------------------------------------------------------------- segments

  function Split(p: string): (segs: seq<string>)
    ensures segs != []
  {
    SplitOn(p, '/')
  }

  predicate IsName(seg: string) {
    seg != "" && seg != "."
  }

  /** The segments that survive lexical cleaning of a rooted path without parent segments. */
  function Names(p: string): seq<string> {
    Filter(Split(p), IsName)
  }

  function Join(names: seq<string>): string {
    if names == [] then "" else "/" + names[0] + Join(names[1..])
  }

  function Render(names: seq<string>): string {
    if names == [] then "/" else Join(names)
  }

  /** `path.Clean` on rooted paths that contain no parent segment. */
  function Clean(p: string): string {
    Render(Names(p))
  }

  predicate ValidNames(names: seq<string>) {
    forall i :: 0 <= i < |names| ==> IsName(names[i]) && names[i] != ".." && '/' !in names[i]
  }

  /** "/" or slash-separated names: what an accepted path looks like. */
  predicate Canonical(p: string) {
    ValidNames(Names(p)) && p == Render(Names(p))
  }

  // ---------------------------------------------------------------- cleaning

  /** The second byte is a colon, which it can only be after a one-byte character. */
  predicate ColonSecond(p: string) {
    |p| >= 2 && p[0] < '\U{80}' && p[1] == ':'
  }

  function CleanPath(p: string): Option<string> {
    if p == "" then None
    else if |p| > MAX_PATH_BYTES then None
    else if exists i :: 0 <= i < |p| && (p[i] == '\\' || IsControl(p[i])) then None
    else if "//" <= p then None
    else if ColonSecond(p) then None
    else if !("/" <= p) then None
    else if ".." in Split(p) then None
    else Some(Clean(p))
  }

  function ReplaceBackslashes(p: string): (r: string)
    ensures |r| == |p|
    ensures forall i :: 0 <= i < |p| ==> r[i] == if p[i] == '\\' then '/' else p[i]
  {
    seq(|p|, i requires 0 <= i < |p| => if p[i] == '\\' then '/' else p[i])
  }

  /** Snapshot roots may also come in Windows drive form. */
  predicate LooksLikeWindows(p: string) {
    '\\' in p || ColonSecond(p)
  }

  /** A drive path without its volume; a path relative to a drive has no such form. */
  function DropVolume(q: string): Option<string> {
    if ColonSecond(q) then
      if |q| == 2 then Some("/")
      else if q[2] == '/' then Some(q[2..])
      else None
    else Some(q)
  }

  function CleanSnapshotPath(p: string): Option<string> {
    if p == "" then None
    else if "\\\\" <= p || "//" <= p then None
    else if LooksLikeWindows(p) then
      match DropVolume(ReplaceBackslashes(p))
      case None => None
      case Some(q) => CleanPath(q)
    else CleanPath(p)
  }

  lemma SplitAtSlash(a: string, b: string)
    ensures Split(a + "/" + b) == Split(a) + Split(b)
  {
    SplitAtSeparator(a, '/', b);
  }

  lemma SplitName(a: string)
    requires '/' !in a
    ensures Split(a) == [a]
  {
    SplitWithoutSeparator(a, '/');
  }

  lemma {:induction false} JoinAppend(a: seq<string>, b: seq<string>)
    ensures Join(a + b) == Join(a) + Join(b)
  {
    if a == [] {
      assert a + b == b;
    } else {
      assert (a + b)[1..] == a[1..] + b;
      JoinAppend(a[1..], b);
    }
  }

  /** Splitting undoes rendering. */
  lemma {:induction false} SplitJoin(names: seq<string>)
    requires ValidNames(names) && names != []
    ensures Split(Join(names)) == [""] + names
    decreases |names|
  {
    var last := names[|names| - 1];
    var front := names[..|names| - 1];
    assert names == front + [last];
    JoinAppend(front, [last]);
    assert [last][1..] == [];
    assert Join([last]) == "/" + last;
    SplitName(last);
    assert Join(names) == Join(front) + "/" + last;
    SplitAtSlash(Join(front), last);
    if front == [] {
      SplitName("");
    } else {
      SplitJoin(front);
    }
  }

  lemma NamesOfRender(names: seq<string>)
    requires ValidNames(names)
    ensures Names(Render(names)) == names && Canonical(Render(names))
  {
    if names == [] {
      assert Split("/") == ["", ""] by { SplitAtSlash("", ""); assert "" + "/" + "" == "/"; }
      assert Filter(["", ""], IsName) == [];
    } else {
      SplitJoin(names);
      FilterAppend([""], names, IsName);
      assert Filter([""], IsName) == [];
      FilterAll(names, IsName);
    }
  }

  lemma NamesAreValid(p: string)
    requires ".." !in Split(p)
    ensures ValidNames(Names(p))
  {
    SplitPartsAreFree(p, '/');
    forall x | x in Names(p) ensures IsName(x) && x != ".." && '/' !in x {
      FilterMember(Split(p), IsName, x);
    }
  }

  /** An accepted path is canonical, and its names are the non-empty, non-"." segments of the input. */
  lemma CleanPathIsCanonical(p: string)
    requires CleanPath(p).Some?
    ensures Canonical(CleanPath(p).value)
    ensures Names(CleanPath(p).value) == Filter(Split(p), IsName)
  {
    NamesAreValid(p);
    NamesOfRender(Names(p));
  }

  /** Cleaning keeps the segments that are neither empty nor ".", in order, each behind one slash. */
  lemma CleanPathKeepsSegments(p: string)
    requires CleanPath(p).Some?
    ensures var kept := Filter(SplitOn(p, '/'), (seg: string) => seg != "" && seg != ".");
      var r := CleanPath(p).value;
      if kept == [] then r == "/" else SplitOn(r, '/') == [""] + kept
  {
    FiltersAgree(Split(p), IsName, (seg: string) => seg != "" && seg != ".");
    NamesAreValid(p);
    if Names(p) != [] {
      SplitJoin(Names(p));
    }
  }

  /** `seg` stands at `i`, between slashes or the ends of the path. */
  ghost predicate SegmentAt(p: string, seg: string, i: nat) {
    && i + |seg| <= |p| && p[i..i + |seg|] == seg
    && (i > 0 ==> p[i - 1] == '/') && (i + |seg| < |p| ==> p[i + |seg|] == '/')
  }

  lemma {:induction false} SplitPartsStandSomewhere(p: string, k: nat)
    requires k < |Split(p)|
    ensures exists i: nat :: SegmentAt(p, Split(p)[k], i) && (k == 0 <==> i == 0)
  {
    if p == "" {
      assert SegmentAt(p, "", 0);
    } else if p[0] == '/' && k == 0 {
      assert SegmentAt(p, "", 0);
    } else if p[0] == '/' {
      SplitPartsStandSomewhere(p[1..], k - 1);
      var i: nat :| SegmentAt(p[1..], Split(p)[k], i);
      OneFurther(p, Split(p)[k], i);
    } else {
      SplitPartsStandSomewhere(p[1..], k);
      var seg := Split(p[1..])[k];
      var i: nat :| SegmentAt(p[1..], seg, i) && (k == 0 <==> i == 0);
      if k == 0 {
        assert p[..1 + |seg|] == [p[0]] + p[1..][..|seg|];
        assert SegmentAt(p, Split(p)[0], 0);
      } else {
        OneFurther(p, seg, i);
        assert Split(p)[k] == seg;
      }
    }
  }

  lemma OneFurther(p: string, seg: string, i: nat)
    requires p != "" && SegmentAt(p[1..], seg, i) && (i == 0 ==> p[0] == '/')
    ensures SegmentAt(p, seg, i + 1)
  {
    assert p[i + 1..i + 1 + |seg|] == p[1..][i..i + |seg|];
  }

  lemma FrontIsPart(seg: string, rest: string)
    requires '/' !in seg && (rest == "" || rest[0] == '/')
    ensures seg in Split(seg + rest)
  {
    SplitName(seg);
    if rest == "" {
      assert seg + rest == seg;
    } else {
      SplitAtSlash(seg, rest[1..]);
      assert seg + rest == seg + "/" + rest[1..];
    }
  }

  lemma StandingSegmentIsPart(p: string, seg: string, i: nat)
    requires '/' !in seg && SegmentAt(p, seg, i)
    ensures seg in Split(p)
  {
    var rest := p[i + |seg|..];
    FrontIsPart(seg, rest);
    assert p[i..] == seg + rest;
    if i > 0 {
      SplitAtSlash(p[..i - 1], p[i..]);
      assert p == p[..i - 1] + "/" + p[i..];
    } else {
      assert p == p[i..];
    }
  }

  /** A segment ".." stands behind the slash at `i`. */
  ghost predicate ParentAt(p: string, i: nat) {
    i + 3 <= |p| && p[i] == '/' && p[i + 1] == '.' && p[i + 2] == '.' && (i + 3 == |p| || p[i + 3] == '/')
  }

  lemma ParentIsPart(p: string, i: nat)
    requires ParentAt(p, i)
    ensures ".." in Split(p)
  {
    var seg := "..";
    assert p[i + 1..i + 3] == [p[i + 1], p[i + 2]] == seg;
    StandingSegmentIsPart(p, seg, i + 1);
  }

  lemma StandingParent(p: string, i: nat)
    requires p != "" && p[0] == '/' && SegmentAt(p, "..", i)
    ensures i > 0 && ParentAt(p, i - 1)
  {
    assert p[i] == p[i..i + 2][0] == '.' && p[i + 1] == p[i..i + 2][1] == '.';
  }

  lemma ParentsStandBehindSlashes(p: string)
    requires p != "" && p[0] == '/'
    ensures ".." in Split(p) <==> exists i: nat :: ParentAt(p, i)
  {
    if i: nat :| ParentAt(p, i) {
      ParentIsPart(p, i);
    } else if ".." in Split(p) {
      var k :| 0 <= k < |Split(p)| && Split(p)[k] == "..";
      SplitPartsStandSomewhere(p, k);
      var i: nat :| SegmentAt(p, Split(p)[k], i);
      StandingParent(p, i);
    }
  }

  /** What a path must look like to be accepted: rooted, of at most 4096 characters, no second slash or colon
      behind the root, no backslash or control character, and no parent segment. */
  lemma CleanPathAccepts(p: string)
    ensures CleanPath(p).Some? <==>
      && 1 <= |p| <= 4096 && p[0] == '/' && (|p| >= 2 ==> p[1] != '/' && p[1] != ':')
      && (forall i :: 0 <= i < |p| ==> p[i] != '\\' && ' ' <= p[i] && !('\U{7f}' <= p[i] <= '\U{9f}'))
      && !exists i: nat :: ParentAt(p, i)
  {
    if p != "" && p[0] == '/' {
      ParentsStandBehindSlashes(p);
      assert "//" <= p <==> |p| >= 2 && p[1] == '/' by {
        assert |p| >= 2 ==> p[..2] == [p[0], p[1]];
      }
    }
  }

  /** Every character of a cleaned path other than "/" comes from the input, and it is no longer. */
  lemma {:induction false} CleanShrinks(p: string)
    ensures |Join(Names(p))| <= |p| + 1
    ensures p != "" && p[0] == '/' ==> |Join(Names(p))| <= |p|
    ensures forall c :: c in Join(Names(p)) ==> c == '/' || c in p
  {
    JoinedNamesShrink(Split(p));
    SplitWeight(p);
    forall c | c in Join(Names(p)) ensures c == '/' || c in p {
      JoinedNamesChars(Split(p), c);
    }
  }

  /** Total length of the segments, one separator each. */
  function Weight(segs: seq<string>): nat {
    if segs == [] then 0 else 1 + |segs[0]| + Weight(segs[1..])
  }

  lemma {:induction false} SplitWeight(p: string)
    ensures Weight(Split(p)) == |p| + 1
    ensures forall i, c :: 0 <= i < |Split(p)| && c in Split(p)[i] ==> c in p
    ensures p != "" && p[0] == '/' ==> Split(p)[0] == ""
  {
    if p != "" {
      SplitWeight(p[1..]);
      var rest := Split(p[1..]);
      assert p == [p[0]] + p[1..];
      if p[0] == '/' {
        assert ([""] + rest)[1..] == rest;
        assert forall i :: 0 < i < |Split(p)| ==> Split(p)[i] == rest[i - 1];
      } else {
        assert ([[p[0]] + rest[0]] + rest[1..])[1..] == rest[1..];
        forall i, c | 0 <= i < |Split(p)| && c in Split(p)[i] ensures c in p {
          if i == 0 {
            assert c == p[0] || c in rest[0];
          } else {
            assert Split(p)[i] == rest[i];
          }
        }
      }
    }
  }

  lemma FilterCons(segs: seq<string>)
    requires segs != []
    ensures Join(Filter(segs, IsName))
         == (if IsName(segs[0]) then "/" + segs[0] else "") + Join(Filter(segs[1..], IsName))
  {
    var rest := Filter(segs[1..], IsName);
    assert [] + rest == rest && ([segs[0]] + rest)[1..] == rest;
  }

  lemma {:induction false} JoinedNamesShrink(segs: seq<string>)
    ensures |Join(Filter(segs, IsName))| <= Weight(segs)
    ensures segs != [] && segs[0] == "" ==> |Join(Filter(segs, IsName))| + 1 <= Weight(segs)
  {
    if segs != [] {
      JoinedNamesShrink(segs[1..]);
      FilterCons(segs);
    }
  }

  lemma {:induction false} JoinedNamesChars(segs: seq<string>, c: char)
    requires c in Join(Filter(segs, IsName))
    ensures c == '/' || exists i :: 0 <= i < |segs| && c in segs[i]
  {
    if segs != [] {
      FilterCons(segs);
      if c != '/' && c !in segs[0] {
        JoinedNamesChars(segs[1..], c);
        var i :| 0 <= i < |segs[1..]| && c in segs[1..][i];
        assert c in segs[i + 1];
      }
    }
  }

  predicate Legal(p: string) {
    forall i :: 0 <= i < |p| ==> p[i] != '\\' && !IsControl(p[i])
  }

  lemma CleanedIsLegal(p: string)
    requires CleanPath(p).Some?
    ensures Legal(CleanPath(p).value) && |CleanPath(p).value| <= MAX_PATH_BYTES
  {
    CleanShrinks(p);
    var c := CleanPath(p).value;
    if Names(p) != [] {
      forall i | 0 <= i < |c| ensures c[i] != '\\' && !IsControl(c[i]) {
        assert c[i] in Join(Names(p));
        if c[i] != '/' {
          var k :| 0 <= k < |p| && p[k] == c[i];
        }
      }
    }
  }

  /** What a rendered path looks like to the tests of `CleanPath`. */
  lemma RenderedShape(names: seq<string>)
    requires ValidNames(names)
    ensures var c := Render(names);
      "/" <= c && !("//" <= c) && ".." !in Split(c)
  {
    if names == [] {
      assert Split("/") == ["", ""] by { SplitAtSlash("", ""); assert "" + "/" + "" == "/"; }
    } else {
      SplitJoin(names);
      assert Join(names)[1] == names[0][0] && names[0][0] in names[0];
    }
  }

  lemma OnlyTheColonTestIsLeft(c: string)
    requires Legal(c) && |c| <= MAX_PATH_BYTES && "/" <= c && !("//" <= c) && ".." !in Split(c)
    ensures CleanPath(c) == if ColonSecond(c) then None else Some(Clean(c))
  {
  }

  /** Cleaning fixes its own results, except those whose second byte is ':', which it then rejects. */
  lemma CleanPathFixesItsResults(p: string)
    requires CleanPath(p).Some?
    ensures var c := CleanPath(p).value;
      CleanPath(c) == Some(c) <==> !ColonSecond(c)
  {
    NamesAreValid(p);
    NamesOfRender(Names(p));
    RenderedShape(Names(p));
    CleanedIsLegal(p);
    OnlyTheColonTestIsLeft(CleanPath(p).value);
  }

  /** One name below the root is clean. */
  lemma NameIsClean(name: string)
    requires IsName(name) && name != ".." && '/' !in name && Legal(name) && name[0] != ':' && |name| < MAX_PATH_BYTES
    ensures CleanPath("/" + name) == Some("/" + name)
  {
    assert [name][1..] == [];
    assert Join([name]) == "/" + name;
    NamesOfRender([name]);
    RenderedShape([name]);
    OnlyTheColonTestIsLeft("/" + name);
  }

  lemma TwoNamesAreClean(a: string, b: string)
    requires a != "" && a[0] != ':' && ValidNames([a, b]) && Legal(a) && Legal(b) && |a| + |b| + 2 <= MAX_PATH_BYTES
    ensures CleanPath("/" + a + "/" + b) == Some("/" + a + "/" + b)
  {
    var p := "/" + a + "/" + b;
    assert [a, b][1..] == [b] && [b][1..] == [];
    assert Join([b]) == "/" + b;
    assert Join([a, b]) == p;
    NamesOfRender([a, b]);
    RenderedShape([a, b]);
    assert p[1] == a[0];
    OnlyTheColonTestIsLeft(p);
  }

  /** A rejected re-cleaning really occurs: "/./:x" is accepted and becomes "/:x". */
  lemma CleanPathRejectsItsOwnResult()
    ensures CleanPath("/./:x") == Some("/:x") && CleanPath("/:x") == None
  {
    ColonSegments();
    assert [":x"][1..] == [] && [".", ":x"][1..] == [":x"] && ["", ".", ":x"][1..] == [".", ":x"];
    assert Names("/./:x") == [":x"];
    assert Join([":x"]) == "/:x";
    var p := "/./:x";
    assert |p| == 5 && p[0] == '/' && p[1] == '.' && p[2] == '/' && p[3] == ':' && p[4] == 'x';
    assert Legal(p) && p[..1] == "/";
    OnlyTheColonTestIsLeft(p);
    var c := "/:x";
    assert |c| == 3 && c[1] == ':';
  }

  lemma ColonSegments()
    ensures Split("/./:x") == ["", ".", ":x"]
  {
    assert "/./:x" == "" + "/" + "./:x" && "./:x" == "." + "/" + ":x";
    SplitAtSlash("", "./:x");
    SplitAtSlash(".", ":x");
    SplitName("");
    SplitName(":x");
    SplitName(".");
  }

  /** A Windows drive root means the same snapshot path whatever its volume letter is: the volume is
      dropped and the separators are turned around before the ordinary rules apply. A volume that takes
      more than one byte is no volume, and the path is rejected. */
  lemma DriveRootsDropTheVolume(volume: char, rest: string)
    ensures CleanSnapshotPath([volume, ':', '\\'] + rest)
         == if volume < '\U{80}' then CleanPath("/" + ReplaceBackslashes(rest)) else None
  {
    if volume < '\U{80}' {
      DriveForm(volume, '\\', rest);
    } else {
      var p := [volume, ':', '\\'] + rest;
      assert p[0] == volume && p[2] == '\\';
      assert ReplaceBackslashes(p)[0] == volume;
    }
  }

  /** Snapshot paths are cleaned as other paths are, rooted or not, exactly when they do not look like Windows
      paths or are no acceptable path without the volume either. */
  lemma SnapshotPathsAgree(p: string)
    ensures var q := DropVolume(ReplaceBackslashes(p));
      CleanSnapshotPath(p) == CleanPath(p) <==> !LooksLikeWindows(p) || q.None? || CleanPath(q.value) == None
  {
    if LooksLikeWindows(p) {
      assert CleanPath(p) == None;
      if "\\\\" <= p || "//" <= p {
        RewrittenSharesStayRejected(p);
      }
    }
  }

  /** What becomes of a drive: the drive itself is the root, a path below it with either separator loses the
      volume, and a path relative to the drive is rejected. */
  lemma DriveForms(volume: char, c: char, rest: string)
    requires volume < '\U{80}'
    ensures CleanSnapshotPath([volume, ':']) == Some("/")
    ensures CleanSnapshotPath([volume, ':', c] + rest)
         == if c == '/' || c == '\\' then CleanPath("/" + ReplaceBackslashes(rest)) else None
  {
    DriveForm(volume, c, rest);
    var drive := [volume, ':'];
    assert ColonSecond(drive) && ColonSecond(ReplaceBackslashes(drive));
    OnlySlash();
  }

  /** Without a drive, shares are rejected and backslashes count as separators. */
  lemma BackslashForms(rest: string)
    ensures CleanSnapshotPath("\\\\" + rest) == None && CleanSnapshotPath("//" + rest) == None
    ensures rest == "" || (rest[0] != '/' && rest[0] != '\\' && rest[0] != ':') ==>
      CleanSnapshotPath("/" + rest) == CleanPath("/" + ReplaceBackslashes(rest))
  {
    assert "\\\\" <= "\\\\" + rest && "//" <= "//" + rest;
    var p := "/" + rest;
    assert p[0] == '/' && (rest != "" ==> p[1] == rest[0]);
    assert ReplaceBackslashes(p) == "/" + ReplaceBackslashes(rest);
    assert "//" <= p ==> p[1] == '/';
    if !('\\' in p) {
      assert ReplaceBackslashes(p) == p;
    }
  }

  lemma OnlySlash()
    ensures CleanPath("/") == Some("/")
  {
    NamesOfRender([]);
    RenderedShape([]);
    OnlyTheColonTestIsLeft("/");
  }

  lemma DriveForm(volume: char, c: char, rest: string)
    requires volume < '\U{80}'
    ensures CleanSnapshotPath([volume, ':', c] + rest)
         == if c == '/' || c == '\\' then CleanPath("/" + ReplaceBackslashes(rest)) else None
  {
    var p := [volume, ':', c] + rest;
    var q := ReplaceBackslashes(p);
    assert p[0] == volume && p[1] == ':' && p[2] == c;
    assert q[1] == ':' && q[2] == (if c == '\\' then '/' else c);
    assert q[2..] == [q[2]] + ReplaceBackslashes(rest);
  }

  lemma RewrittenSharesStayRejected(p: string)
    requires "\\\\" <= p || "//" <= p
    ensures DropVolume(ReplaceBackslashes(p)) == Some(ReplaceBackslashes(p)) && CleanPath(ReplaceBackslashes(p)) == None
  {
    var q := ReplaceBackslashes(p);
    assert |q| >= 2 && q[0] == '/' && q[1] == '/';
    assert q[..2] == "//";
  }

  /** They differ on a rooted path: the slash in front of a colon is taken for a volume letter. */
  lemma ColonAfterRootIsDropped()
    ensures CleanPath("/:/x") == None && CleanSnapshotPath("/:/x") == Some("/x")
  {
    var p := "/:/x";
    assert |p| == 4 && p[0] == '/' && p[1] == ':' && p[2] == '/' && p[3] == 'x';
    assert !('\\' in p) && ColonSecond(p);
    assert ReplaceBackslashes(p) == p;
    assert p[2..] == "/" + "x";
    NameIsClean("x");
    assert "/" + "x" == "/x";
  }

  // ---------------------------------------------------------------- containment

  predicate PathUnder(child: string, parent: string) {
    if child == parent then true
    else if parent == "/" then "/" <= child
    else parent + "/" <= child
  }

  /** The tool layer's own containment test, written with indices. */
  predicate PathIsUnderAllow(child: string, parent: string) {
    if child == parent then true
    else if parent == "/" then |child| > 0 && child[0] == '/'
    else |child| > |parent| && child[..|parent|] == parent && child[|parent|] == '/'
  }

  /** The two containment tests agree on all strings, canonical or not. */
  lemma ContainmentTestsAgree(child: string, parent: string)
    ensures PathUnder(child, parent) <==> PathIsUnderAllow(child, parent)
  {
    if parent + "/" <= child {
      assert child[..|parent|] == (parent + "/")[..|parent|] == parent;
      assert child[|parent|] == (parent + "/")[|parent|];
    }
    if |child| > |parent| && child[..|parent|] == parent && child[|parent|] == '/' {
      assert child[..|parent| + 1] == parent + "/";
    }
  }

  /** On canonical paths the string-prefix test means that one segment list is a prefix of the other. */
  lemma UnderMeansPrefix(child: string, parent: string)
    requires Canonical(child) && Canonical(parent)
    ensures PathUnder(child, parent) <==> Names(parent) <= Names(child)
  {
    var c, p := Names(child), Names(parent);
    if p <= c {
      assert c == p + c[|p|..];
      JoinAppend(p, c[|p|..]);
      if p != [] && p != c {
        assert child == parent + ("/" + c[|p|] + Join(c[|p|..][1..]));
        assert parent + "/" <= child;
      }
    }
    if PathUnder(child, parent) && child != parent {
      if parent == "/" {
        assert p == [] by { NamesOfRender([]); }
      } else {
        var rest := child[|parent| + 1..];
        assert child == parent + "/" + rest;
        SplitAtSlash(parent, rest);
        FilterAppend(Split(parent), Split(rest), IsName);
      }
    }
  }

  lemma UnderIsTransitive(a: string, b: string, c: string)
    requires Canonical(a) && Canonical(b) && Canonical(c)
    requires PathUnder(a, b) && PathUnder(b, c)
    ensures PathUnder(a, c)
  {
    UnderMeansPrefix(a, b);
    UnderMeansPrefix(b, c);
    UnderMeansPrefix(a, c);
  }

  lemma UnderIsAntisymmetric(a: string, b: string)
    requires Canonical(a) && Canonical(b)
    requires PathUnder(a, b) && PathUnder(b, a)
    ensures a == b
  {
    UnderMeansPrefix(a, b);
    UnderMeansPrefix(b, a);
  }

  /** The ancestors of one path form a chain. */
  lemma AncestorsAreComparable(q: string, a: string, b: string)
    requires Canonical(q) && Canonical(a) && Canonical(b)
    requires PathUnder(q, a) && PathUnder(q, b)
    ensures PathUnder(a, b) || PathUnder(b, a)
  {
    UnderMeansPrefix(q, a);
    UnderMeansPrefix(q, b);
    UnderMeansPrefix(a, b);
    UnderMeansPrefix(b, a);
    var x, y, z := Names(a), Names(b), Names(q);
    assert x == z[..|x|] && y == z[..|y|];
  }

  // ---------------------------------------------------------------- the allowlist

  predicate IsAllowed(allowed: seq<string>, cleaned: string) {
    allowed == [] || exists i :: 0 <= i < |allowed| && PathUnder(cleaned, allowed[i])
  }

  function Check(allowed: seq<string>, raw: string): Option<string> {
    var cleaned := CleanPath(raw);
    if cleaned.Some? && IsAllowed(allowed, cleaned.value) then cleaned else None
  }

  ghost predicate CanonicalList(allowed: seq<string>) {
    forall i :: 0 <= i < |allowed| ==> Canonical(allowed[i])
  }

  /** Whatever lies under a checked request is itself allowed. */
  lemma CheckedRequestCoversItsSubtree(allowed: seq<string>, raw: string, node: string)
    requires CanonicalList(allowed) && Canonical(node)
    requires Check(allowed, raw).Some? && PathUnder(node, Check(allowed, raw).value)
    ensures allowed == [] || UnderSome(node, allowed)
  {
    if allowed != [] {
      var c := Check(allowed, raw).value;
      CleanPathIsCanonical(raw);
      var i :| 0 <= i < |allowed| && PathUnder(c, allowed[i]);
      UnderIsTransitive(node, c, allowed[i]);
    }
  }

  /** A request passes, cleaned, exactly when it can be cleaned and, under an allowlist, an allowed path is one of
      its ancestors, segment by segment. */
  lemma CheckAccepts(allowed: seq<string>, raw: string)
    requires CanonicalList(allowed)
    ensures Check(allowed, raw).Some? <==>
      && CleanPath(raw).Some?
      && (allowed == [] || exists i :: 0 <= i < |allowed| && Names(allowed[i]) <= Names(CleanPath(raw).value))
    ensures Check(allowed, raw).Some? ==> Check(allowed, raw) == CleanPath(raw)
  {
    if CleanPath(raw).Some? {
      CleanPathIsCanonical(raw);
      forall i | 0 <= i < |allowed|
        ensures PathUnder(CleanPath(raw).value, allowed[i]) <==> Names(allowed[i]) <= Names(CleanPath(raw).value)
      {
        UnderMeansPrefix(CleanPath(raw).value, allowed[i]);
      }
    }
  }

  /** What one snapshot root and one allowed path have in common, if anything. */
  function Meet(root: string, allowed: string): seq<string> {
    if PathUnder(root, allowed) then [root]
    else if PathUnder(allowed, root) then [allowed]
    else []
  }

  /** The parts `f` finds for each element, one after the other. */
  function Gather<T>(s: seq<T>, f: T -> seq<string>): seq<string> {
    if s == [] then [] else Gather(s[..|s| - 1], f) + f(s[|s| - 1])
  }

  function Meets(root: string, allowed: seq<string>): seq<string> {
    Gather(allowed, a => Meet(root, a))
  }

  function Projection(p: string, allowed: seq<string>): seq<string> {
    match CleanPath(p)
    case None => []
    case Some(root) => if allowed == [] then [root] else Meets(root, allowed)
  }

  function Projections(paths: seq<string>, allowed: seq<string>): seq<string> {
    Gather(paths, p => Projection(p, allowed))
  }

  lemma GatherStep<T>(s: seq<T>, f: T -> seq<string>, i: nat)
    requires i < |s|
    ensures Gather(s[..i + 1], f) == Gather(s[..i], f) + f(s[i])
  {
    assert s[..i + 1][..i] == s[..i];
  }

  ghost predicate Gathered<T>(x: string, s: seq<T>, f: T -> seq<string>) {
    exists i :: 0 <= i < |s| && x in f(s[i])
  }

  lemma {:induction false} GatherMember<T>(s: seq<T>, f: T -> seq<string>, x: string)
    ensures x in Gather(s, f) <==> Gathered(x, s, f)
  {
    if s != [] {
      var n := |s| - 1;
      GatherMember(s[..n], f, x);
      if Gathered(x, s[..n], f) {
        var i :| 0 <= i < n && x in f(s[..n][i]);
        assert x in f(s[i]);
      }
      if Gathered(x, s, f) {
        var i :| 0 <= i < |s| && x in f(s[i]);
        if i < n {
          assert x in f(s[..n][i]);
        }
      }
    }
  }

  /** First occurrences only, in order. */
  function Distinct(s: seq<string>): seq<string> {
    if s == [] then []
    else
      var front := Distinct(s[..|s| - 1]);
      if s[|s| - 1] in front then front else front + [s[|s| - 1]]
  }

  lemma {:induction false} DistinctKeepsMembers(s: seq<string>)
    ensures forall x :: x in Distinct(s) <==> x in s
    ensures forall i, j :: 0 <= i < j < |Distinct(s)| ==> Distinct(s)[i] != Distinct(s)[j]
  {
    if s != [] {
      DistinctKeepsMembers(s[..|s| - 1]);
      assert s == s[..|s| - 1] + [s[|s| - 1]];
    }
  }

  /** `x` occurs before any `y`. */
  ghost predicate OccursBefore(s: seq<string>, x: string, y: string) {
    exists k :: 0 <= k < |s| && s[k] == x && y !in s[..k + 1]
  }

  /** What is kept stands in the order of its first occurrences. */
  lemma {:induction false} DistinctKeepsOrder(s: seq<string>)
    ensures forall i, j :: 0 <= i < j < |Distinct(s)| ==> OccursBefore(s, Distinct(s)[i], Distinct(s)[j])
  {
    if s != [] {
      var front, d := s[..|s| - 1], Distinct(s);
      DistinctKeepsOrder(front);
      DistinctKeepsMembers(front);
      forall i, j | 0 <= i < j < |d| ensures OccursBefore(s, d[i], d[j]) {
        if j < |Distinct(front)| {
          var k :| 0 <= k < |front| && front[k] == d[i] && d[j] !in front[..k + 1];
          assert s[..k + 1] == front[..k + 1];
        } else {
          assert d[i] in front;
          var k :| 0 <= k < |front| && front[k] == d[i];
          assert forall y :: y in s[..k + 1] ==> y in front;
        }
      }
    }
  }

  lemma DistinctStep(s: seq<string>, x: string)
    ensures Distinct(s + [x]) == if x in Distinct(s) then Distinct(s) else Distinct(s) + [x]
  {
    assert (s + [x])[..|s|] == s;
  }

  /** Append what has not been seen yet. */
  method AddUnseen(x: string, outIn: seq<string>, seenIn: set<string>, ghost before: seq<string>)
      returns (out: seq<string>, seen: set<string>)
    requires outIn == Distinct(before) && seenIn == set y | y in outIn
    ensures out == Distinct(before + [x]) && seen == set y | y in out
  {
    DistinctStep(before, x);
    out, seen := outIn, seenIn;
    if x in seen {
      return;
    }
    seen := seen + {x};
    out := out + [x];
  }

  /** The visible intersection of snapshot roots and allowlist, computed with a `seen` set. */
  method FilterPaths(paths: seq<string>, allowed: seq<string>) returns (out: seq<string>)
    ensures out == Distinct(Projections(paths, allowed))
  {
    out := [];
    if |paths| == 0 {
      return;
    }
    var seen: set<string> := {};
    for i := 0 to |paths|
      invariant out == Distinct(Projections(paths[..i], allowed))
      invariant seen == set x | x in out
    {
      GatherStep(paths, p => Projection(p, allowed), i);
      ghost var before := Projections(paths[..i], allowed);
      assert Projections(paths[..i + 1], allowed) == before + Projection(paths[i], allowed);
      var cleaned := CleanPath(paths[i]);
      if cleaned.None? {
        assert before + [] == before;
        continue;
      }
      if |allowed| == 0 {
        out, seen := AddUnseen(cleaned.value, out, seen, before);
        continue;
      }
      out, seen := AddMeets(cleaned.value, allowed, out, seen, before);
    }
    assert paths[..|paths|] == paths;
  }

  /** What one more allowed path adds for a root. */
  lemma MeetStep(before: seq<string>, root: string, allowed: seq<string>, j: nat)
    requires j < |allowed|
    ensures var done := before + Meets(root, allowed[..j]);
      before + Meets(root, allowed[..j + 1]) == done + Meet(root, allowed[j])
  {
    GatherStep(allowed, a => Meet(root, a), j);
  }

  /** The inner loop of `FilterPaths`: one root against every allowed path. */
  method AddMeets(root: string, allowed: seq<string>, outIn: seq<string>, seenIn: set<string>,
          ghost before: seq<string>)
      returns (out: seq<string>, seen: set<string>)
    requires outIn == Distinct(before) && seenIn == set x | x in outIn
    ensures out == Distinct(before + Meets(root, allowed)) && seen == set x | x in out
  {
    out, seen := outIn, seenIn;
    assert before + Meets(root, allowed[..0]) == before;
    for j := 0 to |allowed|
      invariant out == Distinct(before + Meets(root, allowed[..j]))
      invariant seen == set x | x in out
    {
      MeetStep(before, root, allowed, j);
      ghost var meet := Meet(root, allowed[j]);
      var visible := "";
      if PathUnder(root, allowed[j]) {
        visible := root;
      } else if PathUnder(allowed[j], root) {
        visible := allowed[j];
      } else {
        assert meet == [];
        assert before + Meets(root, allowed[..j]) + [] == before + Meets(root, allowed[..j]);
        continue;
      }
      assert meet == [visible];
      out, seen := AddUnseen(visible, out, seen, before + Meets(root, allowed[..j]));
    }
    assert allowed[..|allowed|] == allowed;
  }

  ghost predicate UnderSomeRoot(q: string, paths: seq<string>) {
    exists i :: 0 <= i < |paths| && CleanPath(paths[i]).Some? && PathUnder(q, CleanPath(paths[i]).value)
  }

  ghost predicate UnderSome(q: string, parents: seq<string>) {
    exists i :: 0 <= i < |parents| && PathUnder(q, parents[i])
  }

  ghost predicate IsMeet(x: string, root: string, allowed: seq<string>) {
    exists i :: 0 <= i < |allowed| && x in Meet(root, allowed[i])
  }

  ghost predicate IsProjection(x: string, paths: seq<string>, allowed: seq<string>) {
    exists i :: 0 <= i < |paths| && x in Projection(paths[i], allowed)
  }

  lemma MeetsMember(root: string, allowed: seq<string>, x: string)
    ensures x in Meets(root, allowed) <==> IsMeet(x, root, allowed)
  {
    GatherMember(allowed, a => Meet(root, a), x);
  }

  lemma ProjectionsMember(paths: seq<string>, allowed: seq<string>, x: string)
    ensures x in Projections(paths, allowed) <==> IsProjection(x, paths, allowed)
  {
    GatherMember(paths, p => Projection(p, allowed), x);
  }

  lemma MeetLiesInBoth(root: string, allowed: string, r: string)
    requires Canonical(root) && Canonical(allowed) && r in Meet(root, allowed)
    ensures Canonical(r) && PathUnder(r, root) && PathUnder(r, allowed)
  {
  }

  /** Every projected path lies under a snapshot root and under an allowed path. */
  lemma ProjectionLiesInBoth(paths: seq<string>, allowed: seq<string>, r: string)
    requires allowed != [] && CanonicalList(allowed) && IsProjection(r, paths, allowed)
    ensures Canonical(r) && UnderSomeRoot(r, paths) && UnderSome(r, allowed)
  {
    var i :| 0 <= i < |paths| && r in Projection(paths[i], allowed);
    var root := CleanPath(paths[i]).value;
    CleanPathIsCanonical(paths[i]);
    MeetsMember(root, allowed, r);
    var j :| 0 <= j < |allowed| && r in Meet(root, allowed[j]);
    MeetLiesInBoth(root, allowed[j], r);
  }

  /** The projection is exact: with a non-empty cleaned allowlist, a path lies under a returned path
      exactly when it lies under a valid snapshot root and under an allowed path. */
  lemma FilterPathsIsIntersection(paths: seq<string>, allowed: seq<string>, q: string)
    requires allowed != [] && CanonicalList(allowed) && Canonical(q)
    ensures UnderSome(q, Distinct(Projections(paths, allowed)))
       <==> UnderSomeRoot(q, paths) && UnderSome(q, allowed)
  {
    var out := Distinct(Projections(paths, allowed));
    DistinctKeepsMembers(Projections(paths, allowed));
    if UnderSome(q, out) {
      var k :| 0 <= k < |out| && PathUnder(q, out[k]);
      ProjectionsMember(paths, allowed, out[k]);
      ProjectionLiesInBoth(paths, allowed, out[k]);
      var i :| 0 <= i < |paths| && CleanPath(paths[i]).Some? && PathUnder(out[k], CleanPath(paths[i]).value);
      CleanPathIsCanonical(paths[i]);
      UnderIsTransitive(q, out[k], CleanPath(paths[i]).value);
      var j :| 0 <= j < |allowed| && PathUnder(out[k], allowed[j]);
      UnderIsTransitive(q, out[k], allowed[j]);
    }
    if UnderSomeRoot(q, paths) && UnderSome(q, allowed) {
      var i :| 0 <= i < |paths| && CleanPath(paths[i]).Some? && PathUnder(q, CleanPath(paths[i]).value);
      var j :| 0 <= j < |allowed| && PathUnder(q, allowed[j]);
      var root := CleanPath(paths[i]).value;
      CleanPathIsCanonical(paths[i]);
      AncestorsAreComparable(q, root, allowed[j]);
      var r := if PathUnder(root, allowed[j]) then root else allowed[j];
      assert r in Meet(root, allowed[j]);
      MeetsMember(root, allowed, r);
      assert r in Projection(paths[i], allowed);
      ProjectionsMember(paths, allowed, r);
      var k :| 0 <= k < |out| && out[k] == r;
    }
  }

  /** Without an allowlist the valid roots are returned, cleaned, and nothing else. */
  lemma FilterPathsWithoutAllowlist(paths: seq<string>, r: string)
    ensures r in Distinct(Projections(paths, []))
       <==> exists i :: 0 <= i < |paths| && CleanPath(paths[i]) == Some(r)
  {
    DistinctKeepsMembers(Projections(paths, []));
    ProjectionsMember(paths, [], r);
    if IsProjection(r, paths, []) {
      var i :| 0 <= i < |paths| && r in Projection(paths[i], []);
      assert CleanPath(paths[i]) == Some(r);
    }
    if i :| 0 <= i < |paths| && CleanPath(paths[i]) == Some(r) {
      assert r in Projection(paths[i], []);
    }
  }
}
