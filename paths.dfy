/**
 * Path strings of the drive: a storage namespace, the separator `::`, then
 * `/`-delimited segments (folder keys end in `/`).  This module holds the
 * pure string handling of the `State` impl: sanitising a path, splitting off
 * a file name, the extension rule, `str::replace`, and the paths computed by
 * the rename operations.
 */
module Paths {
  import opened Wrappers

  /** The storage backends a path can belong to. */
  datatype StorageLocation = BrowserCache | HardDrive | Web3Storj {

    /** The `Display` text, which prefixes every path of the namespace. */
    function Name(): (s: string)
      ensures s != [] && ':' !in s && '/' !in s
    {
      match this
      case BrowserCache => "BrowserCache"
      case HardDrive => "HardDrive"
      case Web3Storj => "Web3Storj"
    }

    /** Key of the namespace's root folder: `<ns>::`. */
    function RootPath(): string {
      Name() + "::"
    }
  }

  // ---------------------------------------------------------------------------
  // The `::` separator

  /** A `::` starts at index `i` of `s`. */
  predicate SepAt(s: string, i: int) {
    0 <= i && i + 1 < |s| && s[i] == ':' && s[i + 1] == ':'
  }

  /** `s.contains("::")`: some index starts a `::`. */
  predicate HasSep(s: string) {
    exists i :: 0 <= i < |s| && SepAt(s, i)
  }

  /** A text that, followed by `::`, puts the FIRST `::` right after itself:
      it holds no `::` and does not end in `:`. */
  predicate LeadsToSep(a: string) {
    !HasSep(a) && (a == [] || a[|a| - 1] != ':')
  }

  /** Index of the first `::` at or after `from`. */
  function FindSep(s: string, from: nat): (r: Option<nat>)
    decreases |s| - from
    ensures r.Some? ==> from <= r.value && SepAt(s, r.value)
    ensures r.Some? ==> forall j :: from <= j < r.value ==> !SepAt(s, j)
    ensures r.None? ==> forall j :: from <= j ==> !SepAt(s, j)
  {
    if from + 1 >= |s| then None
    else if s[from] == ':' && s[from + 1] == ':' then Some(from)
    else FindSep(s, from + 1)
  }

  /** `s.splitn(2, "::")`: the text before the first `::` and the text after
      it, or None when `s` holds no `::`. */
  function SplitOnce(s: string): (r: Option<(string, string)>)
    ensures r.None? <==> !HasSep(s)
    ensures r.Some? ==> s == r.value.0 + "::" + r.value.1 && LeadsToSep(r.value.0)
  {
    match FindSep(s, 0)
    case None => None
    case Some(i) =>
      assert SepAt(s, i);
      assert s == s[..i] + "::" + s[i + 2..];
      assert forall j :: SepAt(s[..i], j) ==> SepAt(s, j) && j < i;
      assert i > 0 ==> !SepAt(s, i - 1);
      Some((s[..i], s[i + 2..]))
  }

  /** A root key splits back into its namespace and an empty folder part. */
  lemma RootPathSplits(loc: StorageLocation)
    ensures SplitOnce(loc.RootPath()) == Some((loc.Name(), []))
  {
    SplitOnceOf(loc.Name(), []);
    assert loc.Name() + "::" + [] == loc.RootPath();
  }

  /** Splitting `a + "::" + b` at its first separator gives back `a` and `b`
      whenever `a` cannot itself hold the first separator. */
  lemma {:induction false} SplitOnceOf(a: string, b: string)
    requires LeadsToSep(a)
    ensures SplitOnce(a + "::" + b) == Some((a, b))
  {
    var s := a + "::" + b;
    assert SepAt(s, |a|);
    forall j | 0 <= j < |a|
      ensures !SepAt(s, j)
    {
      if j + 1 < |a| {
        assert !SepAt(a, j);
      }
    }
    var r := FindSep(s, 0);
    assert r.Some? && r.value == |a|;
    assert s[..|a|] == a && s[|a| + 2..] == b;
  }

  // ---------------------------------------------------------------------------
  // Sanitising (sanitize_file_path)

  /** Every `:` becomes `;`. */
  function ColonsToSemicolons(s: string): (r: string)
    ensures |r| == |s| && ':' !in r
    ensures forall i :: 0 <= i < |s| ==> (r[i] == '/' <==> s[i] == '/')
  {
    seq(|s|, i requires 0 <= i < |s| => if s[i] == ':' then ';' else s[i])
  }

  /** No two `/` in a row. */
  predicate NoDoubleSlash(s: string) {
    forall i :: 0 <= i < |s| - 1 ==> !(s[i] == '/' && s[i + 1] == '/')
  }

  /** The regex replacement of `/+` by `/`: every run of `/` becomes one `/`. */
  function CollapseSlashes(s: string): (r: string)
    ensures NoDoubleSlash(r) && |r| <= |s|
    ensures |s| > 0 ==> |r| > 0 && r[0] == s[0] && r[|r| - 1] == s[|s| - 1]
    ensures forall c :: c in r ==> c in s
  {
    if |s| < 2 then s
    else if s[0] == '/' && s[1] == '/' then CollapseSlashes(s[1..])
    else
      var t := CollapseSlashes(s[1..]);
      assert forall c :: c in [s[0]] + t ==> c == s[0] || c in t;
      [s[0]] + t
  }

  /** Leading `/` removed. */
  function TrimStart(s: string): (r: string)
    ensures |r| <= |s| && r == s[|s| - |r|..]
    ensures r == [] || r[0] != '/'
  {
    if |s| > 0 && s[0] == '/' then TrimStart(s[1..]) else s
  }

  /** Trailing `/` removed (`trim_end_matches('/')`). */
  function TrimEnd(s: string): (r: string)
    ensures |r| <= |s| && r == s[..|r|]
    ensures r == [] || r[|r| - 1] != '/'
  {
    if |s| > 0 && s[|s| - 1] == '/' then TrimEnd(s[..|s| - 1]) else s
  }

  /** `trim_matches('/')`. */
  function TrimSlashes(s: string): string {
    TrimEnd(TrimStart(s))
  }

  /** The sanitised form of the text after the separator. */
  function CleanPart(s: string): string {
    TrimSlashes(CollapseSlashes(ColonsToSemicolons(s)))
  }

  /** A path part as sanitising leaves it. */
  predicate IsClean(c: string) {
    ':' !in c && NoDoubleSlash(c) && (c == [] || (c[0] != '/' && c[|c| - 1] != '/'))
  }

  /** A full path as sanitising leaves it: `<prefix>::<clean part>`. */
  predicate IsCanonical(p: string) {
    SplitOnce(p).Some? && IsClean(SplitOnce(p).value.1)
  }

  /** `sanitize_file_path`. */
  function Sanitize(path: string): (r: string)
    ensures !HasSep(path) ==> r == path + "::"
    ensures HasSep(path) ==>
      var (prefix, rest) := SplitOnce(path).value;
      r == prefix + "::" + JoinSlash(Segments(ColonsToSemicolons(rest)))
  {
    match SplitOnce(path)
    case None => path + "::" + CleanPart("")
    case Some((prefix, rest)) =>
      CleanPartMeaning(rest);
      prefix + "::" + CleanPart(rest)
  }

  // ---------------------------------------------------------------------------
  // Segments: `split('/').filter(|x| !x.is_empty())`

  function Flush(cur: string): seq<string> {
    if cur == [] then [] else [cur]
  }

  /** The non-empty `/`-delimited pieces of `cur + s`, where `cur` is the piece
      being read. */
  function SegmentsFrom(s: string, cur: string): (r: seq<string>)
    requires '/' !in cur
    ensures forall i :: 0 <= i < |r| ==> r[i] != [] && '/' !in r[i]
  {
    if s == [] then Flush(cur)
    else if s[0] == '/' then Flush(cur) + SegmentsFrom(s[1..], [])
    else SegmentsFrom(s[1..], cur + [s[0]])
  }

  function Segments(s: string): (r: seq<string>)
    ensures forall i :: 0 <= i < |r| ==> r[i] != [] && '/' !in r[i]
  {
    SegmentsFrom(s, [])
  }

  /** Segments joined by `/`. */
  function JoinSlash(ss: seq<string>): string {
    if |ss| == 0 then []
    else if |ss| == 1 then ss[0]
    else JoinSlash(ss[..|ss| - 1]) + "/" + ss[|ss| - 1]
  }

  /** Segments each followed by `/`: the suffix of a folder key after `<ns>::`. */
  function FolderSuffix(ss: seq<string>): string {
    if ss == [] then [] else FolderSuffix(ss[..|ss| - 1]) + ss[|ss| - 1] + "/"
  }

  /** Segments that a path can be made of. */
  predicate ProperSegments(ss: seq<string>) {
    forall i :: 0 <= i < |ss| ==> ss[i] != [] && '/' !in ss[i]
  }

  lemma {:induction false} SegmentsDoubleSlash(t: string, cur: string)
    requires '/' !in cur
    ensures SegmentsFrom("/" + ("/" + t), cur) == SegmentsFrom("/" + t, cur)
  {
    assert ("/" + ("/" + t))[1..] == "/" + t;
    assert ("/" + t)[1..] == t;
  }

  lemma {:induction false} SegmentsCollapse(s: string, cur: string)
    requires '/' !in cur
    ensures SegmentsFrom(CollapseSlashes(s), cur) == SegmentsFrom(s, cur)
    decreases |s|
  {
    if |s| < 2 {
    } else if s[0] == '/' && s[1] == '/' {
      SegmentsCollapse(s[1..], cur);
      assert s == "/" + ("/" + s[2..]);
      assert s[1..] == "/" + s[2..];
      SegmentsDoubleSlash(s[2..], cur);
    } else {
      var t := CollapseSlashes(s[1..]);
      assert ([s[0]] + t)[0] == s[0] && ([s[0]] + t)[1..] == t;
      if s[0] == '/' {
        SegmentsCollapse(s[1..], []);
      } else {
        SegmentsCollapse(s[1..], cur + [s[0]]);
      }
    }
  }

  lemma SegmentsLeadingSlash(t: string)
    ensures SegmentsFrom("/" + t, []) == SegmentsFrom(t, [])
  {
    assert ("/" + t)[0] == '/' && ("/" + t)[1..] == t;
    assert Flush([]) == [];
  }

  lemma {:induction false} SegmentsTrimStart(s: string)
    ensures SegmentsFrom(TrimStart(s), []) == SegmentsFrom(s, [])
    decreases |s|
  {
    if |s| > 0 && s[0] == '/' {
      assert s == "/" + s[1..];
      SegmentsLeadingSlash(s[1..]);
      SegmentsTrimStart(s[1..]);
    }
  }

  lemma {:induction false} SegmentsTrailingSlash(t: string, cur: string)
    requires '/' !in cur
    ensures SegmentsFrom(t + "/", cur) == SegmentsFrom(t, cur)
    decreases |t|
  {
    if t == [] {
      assert (t + "/")[1..] == [];
    } else {
      assert (t + "/")[0] == t[0] && (t + "/")[1..] == t[1..] + "/";
      if t[0] == '/' {
        SegmentsTrailingSlash(t[1..], []);
      } else {
        SegmentsTrailingSlash(t[1..], cur + [t[0]]);
      }
    }
  }

  lemma {:induction false} SegmentsTrimEnd(s: string, cur: string)
    requires '/' !in cur
    ensures SegmentsFrom(TrimEnd(s), cur) == SegmentsFrom(s, cur)
    decreases |s|
  {
    if |s| > 0 && s[|s| - 1] == '/' {
      var t := s[..|s| - 1];
      assert s == t + "/";
      SegmentsTrailingSlash(t, cur);
      SegmentsTrimEnd(t, cur);
    }
  }

  lemma {:induction false} JoinSlashCons(a: string, ss: seq<string>)
    requires ss != []
    ensures JoinSlash([a] + ss) == a + "/" + JoinSlash(ss)
    decreases |ss|
  {
    if |ss| == 1 {
      assert [a] + ss == [a, ss[0]];
      assert ([a] + ss)[..1] == [a];
    } else {
      var front := ss[..|ss| - 1];
      assert ([a] + ss)[..|ss|] == [a] + front;
      JoinSlashCons(a, front);
    }
  }

  lemma {:induction false} SegmentsWord(a: string, s: string, cur: string)
    requires '/' !in a && '/' !in cur
    ensures SegmentsFrom(a + s, cur) == SegmentsFrom(s, cur + a)
    decreases |a|
  {
    if a == [] {
      assert a + s == s && cur + a == cur;
    } else {
      assert (a + s)[0] == a[0] && (a + s)[1..] == a[1..] + s;
      SegmentsWord(a[1..], s, cur + [a[0]]);
      assert cur + [a[0]] + a[1..] == cur + a;
    }
  }

  /** Proper segments joined by `/` split back into themselves. */
  lemma {:induction false} SegmentsOfJoin(ss: seq<string>)
    requires ProperSegments(ss)
    ensures Segments(JoinSlash(ss)) == ss
    decreases |ss|
  {
    if |ss| == 1 {
      SegmentsWord(ss[0], [], []);
      assert ss[0] + [] == ss[0] && [] + ss[0] == ss[0];
    } else if |ss| > 1 {
      var rest := ss[1..];
      assert ss == [ss[0]] + rest;
      JoinSlashCons(ss[0], rest);
      SegmentsOfJoin(rest);
      var t := JoinSlash(rest);
      assert ss[0] + "/" + t == ss[0] + ("/" + t);
      SegmentsWord(ss[0], "/" + t, []);
      assert ("/" + t)[0] == '/' && ("/" + t)[1..] == t;
      assert [] + ss[0] == ss[0];
    }
  }

  /** The segments of a folder key's suffix are the segments it was built from. */
  lemma SegmentsOfFolderSuffix(ss: seq<string>)
    requires ProperSegments(ss)
    ensures Segments(FolderSuffix(ss)) == ss
  {
    if ss != [] {
      FolderSuffixJoin(ss);
      SegmentsTrailingSlash(JoinSlash(ss), []);
    }
    SegmentsOfJoin(ss);
  }

  lemma {:induction false} FolderSuffixCons(a: string, ss: seq<string>)
    ensures FolderSuffix([a] + ss) == a + "/" + FolderSuffix(ss)
    decreases |ss|
  {
    if ss == [] {
      assert ([a] + ss)[..0] == [];
    } else {
      var front := ss[..|ss| - 1];
      assert ([a] + ss)[..|ss|] == [a] + front;
      FolderSuffixCons(a, front);
    }
  }

  /** A clean text is the join of its own segments. */
  lemma {:induction false} CleanJoin(c: string, cur: string)
    requires '/' !in cur && NoDoubleSlash(c)
    requires c == [] || c[|c| - 1] != '/'
    requires cur == [] ==> c == [] || c[0] != '/'
    ensures JoinSlash(SegmentsFrom(c, cur)) == cur + c
    decreases |c|
  {
    if c == [] {
    } else if c[0] == '/' {
      var t := c[1..];
      NoDoubleSlashSlice(c, 1, |c|);
      assert t != [] && t[0] != '/' && t[|t| - 1] != '/';
      CleanJoin(t, []);
      var rest := SegmentsFrom(t, []);
      assert rest != [];
      assert SegmentsFrom(c, cur) == [cur] + rest;
      JoinSlashCons(cur, rest);
      assert c == "/" + t;
    } else {
      NoDoubleSlashSlice(c, 1, |c|);
      assert SegmentsFrom(c, cur) == SegmentsFrom(c[1..], cur + [c[0]]);
      CleanJoin(c[1..], cur + [c[0]]);
      assert cur + [c[0]] + c[1..] == cur + c;
    }
  }

  lemma NoDoubleSlashSlice(s: string, a: nat, b: nat)
    requires NoDoubleSlash(s) && a <= b <= |s|
    ensures NoDoubleSlash(s[a..b])
  {
    forall i | 0 <= i < b - a - 1 ensures !(s[a..b][i] == '/' && s[a..b][i + 1] == '/') {
      assert s[a..b][i] == s[a + i] && s[a..b][i + 1] == s[a + i + 1];
    }
  }

  lemma NoColonSlice(s: string, a: nat, b: nat)
    requires ':' !in s && a <= b <= |s|
    ensures ':' !in s[a..b]
  {
    forall i | 0 <= i < b - a ensures s[a..b][i] != ':' {
      assert s[a..b][i] == s[a + i];
    }
  }

  /** The sanitised part is clean. */
  lemma {:induction false} CleanPartIsClean(s: string)
    ensures IsClean(CleanPart(s))
  {
    var y := CollapseSlashes(ColonsToSemicolons(s));
    var z := TrimStart(y);
    var w := TrimEnd(z);
    assert ':' !in y;
    NoDoubleSlashSlice(y, |y| - |z|, |y|);
    NoColonSlice(y, |y| - |z|, |y|);
    NoDoubleSlashSlice(z, 0, |w|);
    NoColonSlice(z, 0, |w|);
    assert w == [] || w[0] == z[0];
  }

  /** Collapsing and trimming slashes keeps the non-empty pieces. */
  lemma {:induction false} CleanPartSegments(s: string)
    ensures Segments(CleanPart(s)) == Segments(ColonsToSemicolons(s))
  {
    var x := ColonsToSemicolons(s);
    var y := CollapseSlashes(x);
    var z := TrimStart(y);
    SegmentsCollapse(x, []);
    SegmentsTrimStart(y);
    SegmentsTrimEnd(z, []);
  }

  /** The sanitised part is the `/`-join of the non-empty pieces: every `:`
      turned into `;`, runs of `/` collapsed, leading and trailing `/` gone. */
  lemma {:induction false} CleanPartMeaning(s: string)
    ensures CleanPart(s) == JoinSlash(Segments(ColonsToSemicolons(s)))
    ensures IsClean(CleanPart(s))
  {
    CleanPartIsClean(s);
    CleanPartSegments(s);
    CleanJoin(CleanPart(s), []);
  }

  lemma {:induction false} CollapseClean(s: string)
    requires NoDoubleSlash(s)
    ensures CollapseSlashes(s) == s
    decreases |s|
  {
    if |s| >= 2 {
      assert !(s[0] == '/' && s[1] == '/');
      CollapseClean(s[1..]);
    }
  }

  /** Sanitising leaves a clean part as it is. */
  lemma {:induction false} CleanPartFixed(c: string)
    requires IsClean(c)
    ensures CleanPart(c) == c
  {
    assert ColonsToSemicolons(c) == c;
    CollapseClean(c);
  }

  /** Every path that holds `::` sanitises to a canonical path with the same
      text before the first `::`. */
  lemma {:induction false} SanitizeCanonical(path: string)
    requires HasSep(path)
    ensures IsCanonical(Sanitize(path))
    ensures SplitOnce(Sanitize(path)).value.0 == SplitOnce(path).value.0
  {
    var (prefix, rest) := SplitOnce(path).value;
    CleanPartMeaning(rest);
    SplitOnceOf(prefix, CleanPart(rest));
  }

  /** A canonical path is its own sanitised form. */
  lemma {:induction false} SanitizeFixesCanonical(p: string)
    requires IsCanonical(p)
    ensures Sanitize(p) == p
  {
    var (prefix, rest) := SplitOnce(p).value;
    CleanPartFixed(rest);
  }

  /** Sanitising twice is sanitising once, for every path that holds `::`. */
  lemma {:induction false} SanitizeIdempotent(path: string)
    requires HasSep(path)
    ensures Sanitize(Sanitize(path)) == Sanitize(path)
  {
    SanitizeCanonical(path);
    SanitizeFixesCanonical(Sanitize(path));
  }

  /** A path without `::` gains one, and may then not be a fixed point: `x:`
      sanitises to `x:::`, which sanitises to `x::;`. */
  lemma SanitizeNoSepNotIdempotent()
    ensures Sanitize("x:") == "x:::"
    ensures Sanitize("x:::") == "x::;"
  {
    assert !HasSep("x:") by {
      assert !SepAt("x:", 0) && !SepAt("x:", 1);
    }
    assert CleanPart("") == "";
    assert "x:" + "::" == "x:::";
    assert LeadsToSep("x");
    SplitOnceOf("x", ":");
    assert "x" + "::" + ":" == "x:::";
    assert ColonsToSemicolons(":") == ";";
    assert CollapseSlashes(";") == ";";
    assert TrimStart(";") == ";" && TrimEnd(";") == ";";
    assert CleanPart(":") == ";";
    assert "x" + "::" + ";" == "x::;";
  }

  // ---------------------------------------------------------------------------
  // split_path and the extension rule

  /** Index of the last `/`. */
  function LastSlash(s: string): (r: Option<nat>)
    ensures r.Some? ==> r.value < |s| && s[r.value] == '/' && '/' !in s[r.value + 1..]
    ensures r.None? ==> '/' !in s
  {
    if s == [] then None
    else if s[|s| - 1] == '/' then Some(|s| - 1)
    else
      var r := LastSlash(s[..|s| - 1]);
      assert r.Some? ==> s[r.value + 1..] == s[..|s| - 1][r.value + 1..] + [s[|s| - 1]];
      assert r.None? ==> s == s[..|s| - 1] + [s[|s| - 1]];
      r
  }

  /** `split_path`: the containing folder path and the file name. */
  function SplitPath(p: string): (r: (string, string))
    ensures '/' !in r.1
    ensures '/' in p ==> r.0 + "/" + r.1 == p
    ensures '/' !in p && HasSep(p) ==> r.0 == SplitOnce(p).value.0 + "::" && r.0 + r.1 == p
    ensures '/' !in p && !HasSep(p) ==> r == ([], p)
  {
    match LastSlash(p)
    case Some(i) =>
      assert p == p[..i] + "/" + p[i + 1..];
      (p[..i], p[i + 1..])
    case None =>
      match SplitOnce(p)
      case Some((storage, name)) =>
        assert forall c :: c in name ==> c in p;
        (storage + "::", name)
      case None => ([], p)
  }

  /** Index of the last `.`. */
  function LastDot(s: string): (r: Option<nat>)
    ensures r.Some? ==> r.value < |s| && s[r.value] == '.' && '.' !in s[r.value + 1..]
    ensures r.None? ==> '.' !in s
  {
    if s == [] then None
    else if s[|s| - 1] == '.' then Some(|s| - 1)
    else
      var r := LastDot(s[..|s| - 1]);
      assert r.Some? ==> s[r.value + 1..] == s[..|s| - 1][r.value + 1..] + [s[|s| - 1]];
      assert r.None? ==> s == s[..|s| - 1] + [s[|s| - 1]];
      r
  }

  /** `name.rsplit('.').next().unwrap_or("")`: the text after the last `.`,
      or the whole name when it has no `.` (the iterator always yields). */
  function Extension(name: string): (e: string)
    ensures '.' !in e && |e| <= |name| && e == name[|name| - |e|..]
    ensures e == name || name[|name| - |e| - 1] == '.'
    ensures '.' !in name ==> e == name
  {
    match LastDot(name)
    case Some(i) => name[i + 1..]
    case None => name
  }

  // ---------------------------------------------------------------------------
  // str::replace

  /** `s.replace(from, to)`: every non-overlapping occurrence of `from`,
      scanning left to right, replaced by `to`; an empty `from` matches at
      every character boundary. */
  function ReplaceAll(s: string, from: string, to: string): (r: string)
    ensures from == to ==> r == s
    ensures |from| == |to| && from != [] ==> |r| == |s|
    decreases |s|
  {
    if from == [] then
      if s == [] then to else to + [s[0]] + ReplaceAll(s[1..], from, to)
    else if |s| < |from| then s
    else if s[..|from|] == from then to + ReplaceAll(s[|from|..], from, to)
    else [s[0]] + ReplaceAll(s[1..], from, to)
  }

  /** `p` occurs in `s` at index `i`. */
  predicate OccursAt(s: string, p: string, i: int) {
    0 <= i && i + |p| <= |s| && s[i..i + |p|] == p
  }

  /** Replacing a text that does not occur changes nothing. */
  lemma {:induction false} ReplaceAbsent(s: string, from: string, to: string)
    requires from != []
    requires forall i :: !OccursAt(s, from, i)
    ensures ReplaceAll(s, from, to) == s
    decreases |s|
  {
    if |s| >= |from| {
      assert !OccursAt(s, from, 0);
      assert s[..|from|] == s[0..0 + |from|];
      forall i ensures !OccursAt(s[1..], from, i) {
        if OccursAt(s[1..], from, i) {
          assert s[1..][i..i + |from|] == s[i + 1..i + 1 + |from|];
          assert OccursAt(s, from, i + 1);
        }
      }
      ReplaceAbsent(s[1..], from, to);
    }
  }

  /** Replacing a path's own leading part rewrites it as a prefix, when that
      part does not occur again in the rest. */
  lemma {:induction false} ReplacePrefix(from: string, rest: string, to: string)
    requires from != []
    requires forall i :: !OccursAt(rest, from, i)
    ensures ReplaceAll(from + rest, from, to) == to + rest
  {
    var s := from + rest;
    assert s[..|from|] == from && s[|from|..] == rest;
    ReplaceAbsent(rest, from, to);
  }

  /** `str::replace` is not a prefix rewrite: the second occurrence of the
      old folder key inside a longer path is rewritten as well. */
  lemma ReplaceRewritesEveryOccurrence()
    ensures ReplaceAll("a/a/", "a/", "b/") == "b/b/"
  {
    assert "a/a/"[..2] == "a/";
    assert "a/a/"[2..] == "a/";
    assert "a/"[..2] == "a/";
    assert "a/"[2..] == [];
  }

  // ---------------------------------------------------------------------------
  // Paths computed by the renames

  /** What rename_folder computes from a folder key: the new key, the text
      before `::` and the parent part (empty for a top-level or root folder). */
  datatype FolderMove = FolderMove(newPath: string, storage: string, parentPath: string)

  /** The path of the parent that rename_folder looks up: note that it lacks
      the trailing `/` of every folder key. */
  function ParentKey(m: FolderMove): (r: string)
    ensures LeadsToSep(m.storage) ==> SplitOnce(r) == Some((m.storage, m.parentPath))
  {
    if LeadsToSep(m.storage) then
      SplitOnceOf(m.storage, m.parentPath);
      m.storage + "::" + m.parentPath
    else
      m.storage + "::" + m.parentPath
  }

  /** rename_folder's path arithmetic; None is "Invalid folder structure". */
  function FolderRenameTarget(oldPath: string, newName: string): (r: Option<FolderMove>)
    ensures r.None? <==> !HasSep(oldPath)
    ensures r.Some? ==> var nw := r.value.newPath; nw != [] && nw[|nw| - 1] == '/'
  {
    match SplitOnce(oldPath)
    case None => None
    case Some((storage, rest)) =>
      var folderPath := TrimEnd(rest);
      var parentPath := match LastSlash(folderPath) case Some(i) => folderPath[..i] case None => [];
      var newPath :=
        if parentPath == [] then storage + "::" + newName + "/"
        else storage + "::" + parentPath + "/" + newName + "/";
      Some(FolderMove(newPath, storage, parentPath))
  }

  lemma {:induction false} FolderSuffixJoin(ss: seq<string>)
    requires ss != []
    ensures FolderSuffix(ss) == JoinSlash(ss) + "/"
    decreases |ss|
  {
    if |ss| > 1 {
      FolderSuffixJoin(ss[..|ss| - 1]);
    } else {
      assert ss[..0] == [];
    }
  }

  lemma {:induction false} JoinSlashNoSlashEnds(ss: seq<string>)
    requires ss != [] && ProperSegments(ss)
    ensures JoinSlash(ss) != []
    ensures JoinSlash(ss)[|JoinSlash(ss)| - 1] != '/' && JoinSlash(ss)[0] != '/'
    decreases |ss|
  {
    var last := ss[|ss| - 1];
    assert last != [] && last[|last| - 1] in last;
    if |ss| > 1 {
      JoinSlashNoSlashEnds(ss[..|ss| - 1]);
    } else {
      assert ss[0][0] in ss[0];
    }
  }

  /** The last `/` of `f + "/" + n` is the one after `f` when `n` has none. */
  lemma {:induction false} LastSlashAfter(f: string, n: string)
    requires '/' !in n
    ensures LastSlash(f + "/" + n) == Some(|f|)
    decreases |n|
  {
    var p := f + "/" + n;
    if n != [] {
      assert p[..|p| - 1] == f + "/" + n[..|n| - 1];
      assert n[|n| - 1] in n;
      LastSlashAfter(f, n[..|n| - 1]);
    } else {
      assert p == f + "/";
    }
  }

  lemma TrimEndOneSlash(j: string)
    requires j != [] && j[|j| - 1] != '/'
    ensures TrimEnd(j + "/") == j
  {
    assert (j + "/")[..|j + "/"| - 1] == j;
  }

  /** The parent part rename_folder reads off the joined segments. */
  lemma {:induction false} ParentOfJoin(segs: seq<string>)
    requires segs != [] && ProperSegments(segs)
    ensures var j := JoinSlash(segs);
      (match LastSlash(j) case Some(i) => j[..i] case None => [])
      == (if |segs| == 1 then [] else JoinSlash(segs[..|segs| - 1]))
  {
    var j := JoinSlash(segs);
    if |segs| >= 2 {
      var front := segs[..|segs| - 1];
      assert j == JoinSlash(front) + "/" + segs[|segs| - 1];
      LastSlashAfter(JoinSlash(front), segs[|segs| - 1]);
      assert j[..|JoinSlash(front)|] == JoinSlash(front);
    }
  }

  /** The text before `::` and the parent part that rename_folder reads off
      a key built from segments. */
  lemma {:induction false} FolderRenameParent(storage: string, segs: seq<string>, newName: string)
    requires LeadsToSep(storage) && segs != [] && ProperSegments(segs)
    ensures var m := FolderRenameTarget(storage + "::" + FolderSuffix(segs), newName);
      && m.Some? && m.value.storage == storage
      && m.value.parentPath == if |segs| == 1 then [] else JoinSlash(segs[..|segs| - 1])
  {
    SplitOnceOf(storage, FolderSuffix(segs));
    FolderSuffixJoin(segs);
    JoinSlashNoSlashEnds(segs);
    TrimEndOneSlash(JoinSlash(segs));
    ParentOfJoin(segs);
  }

  lemma FolderSuffixSnoc(front: seq<string>, n: string)
    ensures FolderSuffix(front + [n]) == FolderSuffix(front) + n + "/"
  {
    assert (front + [n])[..|front|] == front;
  }

  lemma NestedRenameKey(storage: string, front: seq<string>, newName: string)
    requires front != []
    ensures storage + "::" + JoinSlash(front) + "/" + newName + "/"
      == storage + "::" + FolderSuffix(front + [newName])
  {
    FolderSuffixSnoc(front, newName);
    FolderSuffixJoin(front);
    var j := JoinSlash(front);
    assert FolderSuffix(front + [newName]) == j + "/" + newName + "/";
  }

  lemma TopLevelRenameKey(storage: string, newName: string)
    ensures storage + "::" + newName + "/" == storage + "::" + FolderSuffix([] + [newName])
  {
    FolderSuffixSnoc([], newName);
  }

  /** Renaming a folder whose key was built from segments `s1 … sn` gives
      the key `<ns>::s1/…/s(n-1)/<new>/`, and the parent part is empty
      exactly for a top-level folder. */
  lemma {:induction false} FolderRenameOfBuiltKey(storage: string, segs: seq<string>, newName: string)
    requires LeadsToSep(storage) && segs != [] && ProperSegments(segs)
    ensures var m := FolderRenameTarget(storage + "::" + FolderSuffix(segs), newName);
      && m.Some?
      && m.value.storage == storage
      && m.value.newPath == storage + "::" + FolderSuffix(segs[..|segs| - 1] + [newName])
      && (|segs| == 1 <==> m.value.parentPath == [])
  {
    FolderRenameParent(storage, segs, newName);
    var front := segs[..|segs| - 1];
    if |segs| >= 2 {
      JoinSlashNoSlashEnds(front);
      NestedRenameKey(storage, front, newName);
    } else {
      assert front == [];
      TopLevelRenameKey(storage, newName);
    }
  }

  /** For a nested folder (n >= 2) the parent path that rename_folder looks
      up is the parent's key WITHOUT its trailing `/`, so no key built by
      create_folder matches it. */
  lemma {:induction false} FolderRenameParentLacksSlash(storage: string, segs: seq<string>, newName: string)
    requires LeadsToSep(storage) && |segs| >= 2 && ProperSegments(segs)
    ensures var m := FolderRenameTarget(storage + "::" + FolderSuffix(segs), newName);
      && m.Some?
      && ParentKey(m.value) + "/" == storage + "::" + FolderSuffix(segs[..|segs| - 1])
      && ParentKey(m.value)[|ParentKey(m.value)| - 1] != '/'
  {
    FolderRenameParent(storage, segs, newName);
    var front := segs[..|segs| - 1];
    FrontProper(segs);
    KeyOfFront(storage, front);
  }

  lemma FrontProper(segs: seq<string>)
    requires segs != [] && ProperSegments(segs)
    ensures ProperSegments(segs[..|segs| - 1])
  {
    var front := segs[..|segs| - 1];
    forall i | 0 <= i < |front| ensures front[i] != [] && '/' !in front[i] {
      assert front[i] == segs[i];
    }
  }

  /** The key `<ns>::s1/…/sk` without its trailing `/`. */
  lemma KeyOfFront(storage: string, front: seq<string>)
    requires front != [] && ProperSegments(front)
    ensures var key := storage + "::" + JoinSlash(front);
      key + "/" == storage + "::" + FolderSuffix(front) && key[|key| - 1] != '/'
  {
    var pp := JoinSlash(front);
    JoinSlashNoSlashEnds(front);
    FolderSuffixJoin(front);
    var key := storage + "::" + pp;
    assert key + "/" == storage + "::" + (pp + "/");
    assert key[|key| - 1] == pp[|pp| - 1];
  }

  /** Renaming a root folder `<ns>::` gives the top-level key `<ns>::<new>/`. */
  lemma {:induction false} FolderRenameOfRoot(storage: string, newName: string)
    requires LeadsToSep(storage)
    ensures FolderRenameTarget(storage + "::", newName)
      == Some(FolderMove(storage + "::" + newName + "/", storage, []))
  {
    SplitOnceOf(storage, []);
    assert storage + "::" + [] == storage + "::";
  }

  /** rename_file's path arithmetic; None is "Invalid file structure". */
  function FileRenameTarget(oldPath: string, newName: string): (r: Option<string>)
    ensures r.None? <==> !HasSep(oldPath)
  {
    match SplitOnce(oldPath)
    case None => None
    case Some((storage, rest)) =>
      match LastSlash(rest)
      case Some(i) => Some(storage + "::" + rest[..i] + "/" + newName)
      case None => Some(storage + "::" + newName)
  }

  /** When a path splits as `f + "/" + n` with `n` free of `/`, split_path
      returns exactly `(f, n)`. */
  lemma {:induction false} SplitLastUnique(f: string, n: string)
    requires '/' !in n
    ensures SplitPath(f + "/" + n) == (f, n)
  {
    var p := f + "/" + n;
    LastSlashAfter(f, n);
    assert p[..|f|] == f && p[|f| + 1..] == n;
  }

  /** When neither part holds a `/`, split_path splits at the first `::`. */
  lemma {:induction false} SplitNoSlash(storage: string, n: string)
    requires LeadsToSep(storage) && '/' !in storage && '/' !in n
    ensures SplitPath(storage + "::" + n) == (storage + "::", n)
  {
    SplitOnceOf(storage, n);
  }

  /** Renaming a file keeps its folder part and puts the new name after it:
      splitting the new path gives back the old folder and the new name. */
  lemma {:induction false} FileRenameKeepsFolder(oldPath: string, newName: string)
    requires SplitOnce(oldPath).Some? && '/' !in SplitOnce(oldPath).value.0
    requires '/' !in newName
    ensures FileRenameTarget(oldPath, newName).Some?
    ensures SplitPath(FileRenameTarget(oldPath, newName).value)
      == (SplitPath(oldPath).0, newName)
  {
    var storage, rest := SplitOnce(oldPath).value.0, SplitOnce(oldPath).value.1;
    match LastSlash(rest)
    case Some(i) => FileRenameNested(storage, rest, i, newName);
    case None => FileRenameTop(storage, rest, newName);
  }

  /** The case of a file below a folder: the last `/` of the rest sits at `i`. */
  lemma {:induction false} FileRenameNested(storage: string, rest: string, i: nat, newName: string)
    requires i < |rest| && rest[i] == '/' && '/' !in rest[i + 1..] && '/' !in newName
    ensures SplitPath(storage + "::" + rest[..i] + "/" + newName) == (SplitPath(storage + "::" + rest).0, newName)
  {
    var f := storage + "::" + rest[..i];
    assert rest == rest[..i] + "/" + rest[i + 1..];
    assert storage + "::" + rest == f + "/" + rest[i + 1..];
    SplitLastUnique(f, rest[i + 1..]);
    SplitLastUnique(f, newName);
  }

  /** The case of a file at the top of its namespace. */
  lemma {:induction false} FileRenameTop(storage: string, rest: string, newName: string)
    requires LeadsToSep(storage) && '/' !in storage && '/' !in rest && '/' !in newName
    ensures SplitPath(storage + "::" + newName) == (SplitPath(storage + "::" + rest).0, newName)
  {
    SplitNoSlash(storage, rest);
    SplitNoSlash(storage, newName);
  }

  // ---------------------------------------------------------------------------
  // ensure_folder_structure's reading of a folder path

  /** `path_parts = folder_path.split("::")`: `path_parts[0]` and
      `path_parts[1]`; None when there is no `::` and the index panics. */
  function EnsureParts(folderPath: string): (r: Option<(string, string)>)
    ensures r.None? <==> !HasSep(folderPath)
  {
    match SplitOnce(folderPath)
    case None => None
    case Some((head, rest)) =>
      match SplitOnce(rest)
      case None => Some((head, rest))
      case Some((second, _)) => Some((head, second))
  }
}
