/** Printing and parsing preservation addresses: insertConflictSuffix of src/utils/path.ts and
    directConflictCandidateHint of src/sync/conflict.ts. */
module ConflictNames {
  import opened Strings
  import opened Wrappers

  predicate IsHex(c: char) {
    '0' <= c <= '9' || 'a' <= c <= 'f'
  }

  /** A full SHA-256 in lower-case hexadecimal. */
  predicate IsDigest(d: string) {
    |d| == 64 && forall i | 0 <= i < |d| :: IsHex(d[i])
  }

  /** What `.` does not match in a regular expression. */
  predicate IsLineEnd(c: char) {
    c == '\n' || c == '\r' || c == '\U{2028}' || c == '\U{2029}'
  }

  predicate OneLine(s: string) {
    forall i | 0 <= i < |s| :: !IsLineEnd(s[i])
  }

  const MARK := ".conflict-"

  function Suffix(d: string): string { MARK + d }

  // ---------------------------------------------------------------- printing

  /** A mark goes before the extension, or at the end when the name has none. */
  function InsertMark(path: string, mark: string): string {
    var lastDot := LastIndexOf(path, '.');
    if lastDot == -1 || lastDot <= LastIndexOf(path, '/') then path + mark
    else path[..lastDot] + mark + path[lastDot..]
  }

  function InsertConflictSuffix(path: string, d: string): string {
    InsertMark(path, Suffix(d))
  }

  // ---------------------------------------------------------------- parsing

  datatype Hint = Hint(basePath: string, sha256: string)

  /** `(\.[^.]*)?$` */
  predicate IsTail(r: string) {
    r == "" || (r[0] == '.' && '.' !in r[1..])
  }

  /** The expression matches with its first group as long as `i`. */
  predicate MatchesAt(f: string, i: nat) {
    && i + 74 <= |f| && f[i..i + 10] == MARK && IsDigest(f[i + 10..i + 74])
    && IsTail(f[i + 74..]) && OneLine(f[..i])
  }

  /** The first group is greedy: the longest one that matches wins. */
  function Greedy(f: string, i: nat): (m: Option<nat>)
    ensures m.Some? ==> m.value <= i && MatchesAt(f, m.value)
  {
    if MatchesAt(f, i) then Some(i) else if i == 0 then None else Greedy(f, i - 1)
  }

  function HintAt(path: string, directory: string, filename: string, i: nat): Option<Hint>
    requires i + 74 <= |filename|
  {
    var tail := filename[i + 74..];
    var basePath := directory + filename[..i] + tail;
    var sha256 := filename[i + 10..i + 74];
    if (i == 0 && tail == "") || InsertConflictSuffix(basePath, sha256) != path then None
    else Some(Hint(basePath, sha256))
  }

  function DirectConflictCandidateHint(path: string): Option<Hint> {
    var filename := FileName(path);
    var m := Greedy(filename, |filename|);
    if m.None? then None else HintAt(path, Directory(path), filename, m.value)
  }

  // ---------------------------------------------------------------- names without their directory

  function FileName(path: string): string {
    path[LastIndexOf(path, '/') + 1..]
  }

  function Directory(path: string): string {
    path[..LastIndexOf(path, '/') + 1]
  }

  /** The name up to its last dot. */
  function Stem(name: string): string {
    var e := LastIndexOf(name, '.');
    if e == -1 then name else name[..e]
  }

  /** The extension with its dot, or nothing. */
  function Extension(name: string): string {
    var e := LastIndexOf(name, '.');
    if e == -1 then "" else name[e..]
  }

  function MarkName(name: string, mark: string): string {
    Stem(name) + mark + Extension(name)
  }

  function PrintName(name: string, d: string): string {
    MarkName(name, Suffix(d))
  }

  lemma NameParts(name: string)
    ensures name == Stem(name) + Extension(name)
    ensures '.' !in Extension(name)[if Extension(name) == "" then 0 else 1..]
    ensures Extension(name) == "" ==> '.' !in name
    ensures Extension(name) != "" ==> Extension(name)[0] == '.'
  {
  }

  lemma PathParts(path: string)
    ensures path == Directory(path) + FileName(path) && '/' !in FileName(path)
    ensures Directory(path) == "" || Directory(path)[|Directory(path)| - 1] == '/'
  {
  }

  /** A directory and a name make a path with those parts. */
  lemma PartsOfJoined(directory: string, name: string)
    requires directory == "" || directory[|directory| - 1] == '/'
    requires '/' !in name
    ensures Directory(directory + name) == directory && FileName(directory + name) == name
  {
    var path := directory + name;
    assert forall i | |directory| <= i < |path| :: path[i] == name[i - |directory|];
    LastIndexIs(path, '/', |directory| - 1);
    assert path[..|directory|] == directory && path[|directory|..] == name;
  }

  lemma SuffixPlain(d: string)
    requires IsDigest(d)
    ensures |Suffix(d)| == 74 && Suffix(d)[0] == '.' && '.' !in Suffix(d)[1..] && '/' !in Suffix(d) &&
            OneLine(Suffix(d))
    ensures Suffix(d)[..10] == MARK && Suffix(d)[10..] == d
  {
    forall i | 0 <= i < |Suffix(d)| ensures Suffix(d)[i] == if i < 10 then MARK[i] else d[i - 10] {
    }
    forall i | 10 <= i < 74 ensures IsHex(Suffix(d)[i]) {
      assert Suffix(d)[i] == d[i - 10];
    }
  }

  lemma MarksPlainName(directory: string, name: string, mark: string)
    requires (directory == "" || directory[|directory| - 1] == '/') && '/' !in name && '.' !in name
    ensures InsertMark(directory + name, mark) == directory + MarkName(name, mark)
  {
    var path := directory + name;
    PartsOfJoined(directory, name);
    var slash, lastDot := LastIndexOf(path, '/'), LastIndexOf(path, '.');
    assert forall i | |directory| <= i < |path| :: path[i] == name[i - |directory|];
    assert slash == |directory| - 1;
    assert lastDot < |directory|;
    assert LastIndexOf(name, '.') == -1;
    assert directory + (name + mark + "") == path + mark;
  }

  lemma DotOfJoined(directory: string, name: string)
    requires (directory == "" || directory[|directory| - 1] == '/') && '/' !in name && '.' in name
    ensures LastIndexOf(name, '.') >= 0
    ensures LastIndexOf(directory + name, '.') == |directory| + LastIndexOf(name, '.')
    ensures LastIndexOf(directory + name, '.') > LastIndexOf(directory + name, '/')
  {
    LastIndexJoined(directory, name, '.', |directory| + LastIndexOf(name, '.'));
    LastIndexJoined(directory, name, '/', |directory| - 1);
  }

  lemma LastIndexJoined(directory: string, name: string, c: char, k: int)
    requires k == |directory| + LastIndexOf(name, c)
    requires k >= |directory| || directory == "" || directory[|directory| - 1] == c
    ensures LastIndexOf(directory + name, c) == k
  {
    assert forall i | |directory| <= i < |directory + name| :: (directory + name)[i] == name[i - |directory|];
    LastIndexIs(directory + name, c, k);
  }

  lemma SliceJoined(a: string, b: string, k: nat)
    requires k <= |b|
    ensures (a + b)[..|a| + k] == a + b[..k] && (a + b)[|a| + k..] == b[k..]
  {
  }

  /** `marked` is the path with the mark at `k`. */
  ghost predicate MarkedAt(path: string, mark: string, k: nat, marked: string) {
    k <= |path| && marked == path[..k] + mark + path[k..]
  }

  lemma DottedPath(path: string, mark: string, k: nat)
    requires LastIndexOf(path, '.') == k > LastIndexOf(path, '/')
    ensures MarkedAt(path, mark, k, InsertMark(path, mark))
  {
  }

  lemma DottedName(directory: string, name: string, mark: string, k: nat)
    requires LastIndexOf(name, '.') == k
    ensures MarkedAt(directory + name, mark, |directory| + k, directory + MarkName(name, mark))
  {
    InsertedAt(directory, name, k, mark);
  }

  lemma MarksDottedName(directory: string, name: string, mark: string)
    requires (directory == "" || directory[|directory| - 1] == '/') && '/' !in name && '.' in name
    ensures InsertMark(directory + name, mark) == directory + MarkName(name, mark)
  {
    DotOfJoined(directory, name);
    DottedPath(directory + name, mark, |directory| + LastIndexOf(name, '.'));
    DottedName(directory, name, mark, LastIndexOf(name, '.'));
  }

  lemma InsertedAt(a: string, b: string, k: nat, mark: string)
    requires k <= |b|
    ensures (a + b)[..|a| + k] + mark + (a + b)[|a| + k..] == a + (b[..k] + mark + b[k..])
  {
    SliceJoined(a, b, k);
    Regroup(a, b[..k], mark, b[k..]);
  }

  lemma Regroup(a: string, b: string, c: string, d: string)
    ensures (a + b) + c + d == a + (b + c + d)
  {
  }

  /** Printing touches only the name. */
  lemma PrintsName(directory: string, name: string, d: string)
    requires (directory == "" || directory[|directory| - 1] == '/') && '/' !in name
    ensures InsertConflictSuffix(directory + name, d) == directory + PrintName(name, d)
  {
    if '.' in name {
      MarksDottedName(directory, name, Suffix(d));
    } else {
      MarksPlainName(directory, name, Suffix(d));
    }
  }

  // ---------------------------------------------------------------- where the printed name matches

  /** The extension itself reads as a suffix. */
  predicate ConflictExtension(ext: string) {
    |ext| == 74 && ext[..10] == MARK && IsDigest(ext[10..])
  }

  /** A stem without line ends, its suffix and an extension without further dots. */
  ghost predicate Printed(f: string, stem: string, d: string, ext: string) {
    && IsDigest(d) && f == stem + Suffix(d) + ext
    && (if ext == "" then '.' !in stem else ext[0] == '.' && '.' !in ext[1..])
  }

  lemma PrintedAt(f: string, stem: string, d: string, ext: string)
    requires Printed(f, stem, d, ext)
    ensures |f| == |stem| + 74 + |ext|
    ensures f[..|stem|] == stem && f[|stem|..|stem| + 10] == MARK && f[|stem| + 10..|stem| + 74] == d &&
            f[|stem| + 74..] == ext
    ensures forall i | |stem| < i < |f| && i != |stem| + 74 :: f[i] != '.'
  {
    SuffixPlain(d);
    assert f[|stem| + 74..] == ext;
    assert f[|stem| + 10..|stem| + 74] == Suffix(d)[10..];
    assert f[|stem|..|stem| + 10] == Suffix(d)[..10];
    forall i | |stem| < i < |f| && i != |stem| + 74 ensures f[i] != '.' {
      if i < |stem| + 74 {
        assert f[i] == Suffix(d)[1..][i - |stem| - 1];
      } else {
        assert f[i] == ext[1..][i - |stem| - 75];
      }
    }
  }

  /** A match starts at a dot, and has at most one more dot behind it, just after its digest. */
  lemma MatchDots(f: string, i: nat)
    requires MatchesAt(f, i)
    ensures f[i] == '.' && forall k | i < k < |f| && k != i + 74 :: f[k] != '.'
  {
    assert f[i] == f[i..i + 10][0];
    forall k | i < k < |f| && k != i + 74 ensures f[k] != '.' {
      if k < i + 10 {
        assert f[k] == f[i..i + 10][k - i] == MARK[k - i];
      } else if k < i + 74 {
        assert f[k] == f[i + 10..i + 74][k - i - 10];
        assert IsHex(f[k]);
      } else {
        assert f[k] == f[i + 74..][1..][k - i - 75];
      }
    }
  }

  /** The printed place matches exactly when the stem is one line, and the only other place is a conflict extension. */
  lemma WhereItMatches(f: string, stem: string, d: string, ext: string, i: nat)
    requires Printed(f, stem, d, ext)
    ensures MatchesAt(f, i) <==> OneLine(stem) && (i == |stem| || (i == |stem| + 74 && ConflictExtension(ext)))
  {
    PrintedAt(f, stem, d, ext);
    SuffixPlain(d);
    assert forall k | 0 <= k < |stem| :: stem[k] == f[..|stem|][k] == f[k];
    if MatchesAt(f, i) {
      MatchDots(f, i);
      assert f[|stem|] == f[|stem|..|stem| + 10][0];
      assert ext != "" ==> f[|stem| + 74] == ext[0];
      assert i == |stem| || i == |stem| + 74;
      MatchIsOneLine(f, stem, i);
      if i == |stem| + 74 {
        SecondPlace(f, stem, ext);
      }
    } else if i == |stem| + 74 && ConflictExtension(ext) && OneLine(stem) {
      SecondMatches(f, stem, d, ext);
    }
  }

  lemma MatchIsOneLine(f: string, stem: string, i: nat)
    requires MatchesAt(f, i) && |stem| <= i && f[..|stem|] == stem
    ensures OneLine(stem)
  {
  }

  lemma SecondPlace(f: string, stem: string, ext: string)
    requires |f| == |stem| + 74 + |ext| && f[|stem| + 74..] == ext && (ext == "" || '.' !in ext[1..])
    requires MatchesAt(f, |stem| + 74)
    ensures ConflictExtension(ext)
  {
    var i := |stem| + 74;
    assert ext[..10] == f[i..i + 10];
    assert ext[10..74] == f[i + 10..i + 74];
    assert ext[74..] == f[i + 74..];
    forall k | 0 < k < |ext| ensures ext[k] != '.' {
      assert ext[1..][k - 1] == ext[k];
    }
    assert ext[10..] == ext[10..74];
  }

  lemma SecondMatches(f: string, stem: string, d: string, ext: string)
    requires Printed(f, stem, d, ext) && ConflictExtension(ext) && OneLine(stem)
    ensures MatchesAt(f, |stem| + 74)
  {
  }

  // ---------------------------------------------------------------- the round trip

  lemma {:induction false} GreedyFinds(f: string, i: nat, m: Option<nat>)
    requires m.Some? ==> m.value <= i && MatchesAt(f, m.value)
    requires forall j | 0 <= j <= i && MatchesAt(f, j) :: m.Some? && j <= m.value
    ensures Greedy(f, i) == m
  {
    if !MatchesAt(f, i) && i > 0 {
      GreedyFinds(f, i - 1, m);
    }
  }

  /** Which place the parser takes in a printed name. */
  lemma ParsedPlace(f: string, stem: string, d: string, ext: string)
    requires Printed(f, stem, d, ext)
    ensures Greedy(f, |f|) == if !OneLine(stem) then None
                              else if ConflictExtension(ext) then Some(|stem| + 74) else Some(|stem|)
  {
    PrintedAt(f, stem, d, ext);
    forall i: nat
      ensures MatchesAt(f, i) <==> OneLine(stem) && (i == |stem| || (i == |stem| + 74 && ConflictExtension(ext)))
    {
      WhereItMatches(f, stem, d, ext, i);
    }
    GreedyFinds(f, |f|, if !OneLine(stem) then None
                        else if ConflictExtension(ext) then Some(|stem| + 74) else Some(|stem|));
  }

  lemma PrintedName(name: string, d: string)
    requires IsDigest(d) && '/' !in name
    ensures Printed(PrintName(name, d), Stem(name), d, Extension(name)) && '/' !in PrintName(name, d)
  {
  }

  /** A name that ends in its own suffix has that suffix as its extension. */
  lemma SuffixedParts(stem: string, d: string)
    requires IsDigest(d)
    ensures Stem(stem + Suffix(d)) == stem && Extension(stem + Suffix(d)) == Suffix(d)
  {
    SuffixPlain(d);
    var name := stem + Suffix(d);
    forall i | |stem| < i < |name| ensures name[i] != '.' {
      assert name[i] == Suffix(d)[1..][i - |stem| - 1];
    }
    LastIndexIs(name, '.', |stem|);
  }

  /** The second place reads the digests in the other order, so it prints back only if they are one. */
  lemma SwappedDigests(directory: string, stem: string, d: string, h: string)
    requires (directory == "" || directory[|directory| - 1] == '/') && '/' !in stem && IsDigest(d) && IsDigest(h)
    ensures InsertConflictSuffix(directory + (stem + Suffix(d)), h) == directory + (stem + Suffix(d) + Suffix(h)) <==>
            h == d
  {
    SuffixPlain(d);
    SuffixPlain(h);
    SuffixedParts(stem, d);
    PrintsName(directory, stem + Suffix(d), h);
    var one, two := directory + (stem + Suffix(h) + Suffix(d)), directory + (stem + Suffix(d) + Suffix(h));
    assert one[|directory| + |stem|..][..74] == Suffix(h);
    assert two[|directory| + |stem|..][..74] == Suffix(d);
    assert Suffix(h)[10..] == h && Suffix(d)[10..] == d;
  }

  /** The first place gives the base back, unless there is no name at all. */
  lemma FirstHint(path: string, directory: string, name: string, f: string, d: string)
    requires Printed(f, Stem(name), d, Extension(name)) && InsertConflictSuffix(directory + name, d) == path
    ensures |Stem(name)| + 74 <= |f|
    ensures HintAt(path, directory, f, |Stem(name)|) == if name == "" then None else Some(Hint(directory + name, d))
  {
    var stem, ext := Stem(name), Extension(name);
    NameParts(name);
    PrintedAt(f, stem, d, ext);
    JoinThree(directory, stem, ext);
    assert f[|stem| + 10..|stem| + 74] == d && directory + f[..|stem|] + f[|stem| + 74..] == directory + name;
  }

  lemma JoinThree(a: string, b: string, c: string)
    ensures a + b + c == a + (b + c)
  {
  }

  /** The second place gives the base back only when the extension carries the printed digest. */
  lemma SecondHint(path: string, directory: string, name: string, f: string, d: string)
    requires (directory == "" || directory[|directory| - 1] == '/') && '/' !in name && IsDigest(d)
    requires f == PrintName(name, d) && path == directory + f && ConflictExtension(Extension(name))
    ensures |f| == |Stem(name)| + 148
    ensures HintAt(path, directory, f, |Stem(name)| + 74) == Some(Hint(directory + name, d)) <==>
            Extension(name) == Suffix(d)
  {
    var stem, ext := Stem(name), Extension(name);
    NameParts(name);
    SuffixPlain(d);
    var h := ext[10..];
    assert ext == Suffix(h);
    assert f == (stem + Suffix(d)) + Suffix(h);
    assert f[..|stem| + 74] == stem + Suffix(d) && f[|stem| + 148..] == "";
    assert f[|stem| + 84..|stem| + 148] == Suffix(h)[10..];
    SuffixPlain(h);
    assert directory + (stem + Suffix(d)) + "" == directory + (stem + Suffix(d));
    SwappedDigests(directory, stem, d, h);
  }

  lemma HintOfJoined(directory: string, f: string, m: Option<nat>)
    requires (directory == "" || directory[|directory| - 1] == '/') && '/' !in f && Greedy(f, |f|) == m
    ensures m.Some? ==> m.value + 74 <= |f|
    ensures DirectConflictCandidateHint(directory + f) ==
            if m.None? then None else HintAt(directory + f, directory, f, m.value)
  {
    PartsOfJoined(directory, f);
  }

  /** What the parser says of a printed address, by the place it takes. */
  lemma PrintedHint(directory: string, name: string, d: string) returns (m: Option<nat>)
    requires (directory == "" || directory[|directory| - 1] == '/') && '/' !in name && IsDigest(d)
    ensures m == if !OneLine(Stem(name)) then None
                 else if ConflictExtension(Extension(name)) then Some(|Stem(name)| + 74) else Some(|Stem(name)|)
    ensures var f := PrintName(name, d);
            && (m.Some? ==> m.value + 74 <= |f|)
            && DirectConflictCandidateHint(InsertConflictSuffix(directory + name, d)) ==
               if m.None? then None else HintAt(directory + f, directory, f, m.value)
  {
    var f := PrintName(name, d);
    m := Greedy(f, |f|);
    assert m == (if !OneLine(Stem(name)) then None
                 else if ConflictExtension(Extension(name)) then Some(|Stem(name)| + 74) else Some(|Stem(name)|)) by {
      PrintedName(name, d);
      ParsedPlace(f, Stem(name), d, Extension(name));
    }
    PrintsName(directory, name, d);
    assert '/' !in f by { PrintedName(name, d); }
    HintOfJoined(directory, f, m);
  }

  lemma PlainNameParses(directory: string, name: string, d: string)
    requires (directory == "" || directory[|directory| - 1] == '/') && '/' !in name && IsDigest(d)
    requires OneLine(Stem(name)) && !ConflictExtension(Extension(name))
    ensures DirectConflictCandidateHint(InsertConflictSuffix(directory + name, d)) ==
            if name == "" then None else Some(Hint(directory + name, d))
  {
    var m := PrintedHint(directory, name, d);
    PrintsName(directory, name, d);
    PrintedName(name, d);
    FirstHint(directory + PrintName(name, d), directory, name, PrintName(name, d), d);
  }

  lemma SuffixedNameParses(directory: string, name: string, d: string)
    requires (directory == "" || directory[|directory| - 1] == '/') && '/' !in name && IsDigest(d)
    requires OneLine(Stem(name)) && ConflictExtension(Extension(name))
    ensures DirectConflictCandidateHint(InsertConflictSuffix(directory + name, d)) ==
            Some(Hint(directory + name, d)) <==>
            Extension(name) == Suffix(d)
  {
    var m := PrintedHint(directory, name, d);
    SecondHint(directory + PrintName(name, d), directory, name, PrintName(name, d), d);
  }

  lemma PrintParsesParts(directory: string, name: string, d: string)
    requires (directory == "" || directory[|directory| - 1] == '/') && '/' !in name && IsDigest(d)
    ensures DirectConflictCandidateHint(InsertConflictSuffix(directory + name, d)) ==
            Some(Hint(directory + name, d)) <==>
            name != "" && OneLine(Stem(name)) && (ConflictExtension(Extension(name)) ==> Extension(name) == Suffix(d))
  {
    if !OneLine(Stem(name)) {
      var m := PrintedHint(directory, name, d);
    } else if ConflictExtension(Extension(name)) {
      SuffixedNameParses(directory, name, d);
    } else {
      PlainNameParses(directory, name, d);
    }
  }

  /** Parsing a printed address gives back its base and digest, for exactly these bases. */
  lemma PrintParses(base: string, d: string)
    requires IsDigest(d)
    ensures DirectConflictCandidateHint(InsertConflictSuffix(base, d)) == Some(Hint(base, d)) <==>
            && FileName(base) != "" && OneLine(Stem(FileName(base)))
            && (ConflictExtension(Extension(FileName(base))) ==> Extension(FileName(base)) == Suffix(d))
  {
    PathParts(base);
    PrintParsesParts(Directory(base), FileName(base), d);
  }

  /** Whatever parses prints back to itself. */
  lemma ParsedPrintsBack(path: string)
    ensures match DirectConflictCandidateHint(path)
            case None => true
            case Some(hint) => IsDigest(hint.sha256) && InsertConflictSuffix(hint.basePath, hint.sha256) == path
  {
  }

  /** Distinct digests give distinct addresses, for every base. */
  lemma PrintIsInjective(base: string, d: string, h: string)
    requires IsDigest(d) && IsDigest(h) && InsertConflictSuffix(base, d) == InsertConflictSuffix(base, h)
    ensures d == h
  {
    var lastDot := LastIndexOf(base, '.');
    var k := if lastDot == -1 || lastDot <= LastIndexOf(base, '/') then |base| else lastDot;
    assert InsertConflictSuffix(base, d)[k + 10..k + 74] == d;
    assert InsertConflictSuffix(base, h)[k + 10..k + 74] == h;
  }
}
