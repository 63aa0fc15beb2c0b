/** Rewriting an image URL between its high- and medium-quality directories
    (`mapQualitySource` in gallery-common.js). */
module QualityPaths {
  import opened JsStrings

  /** The (high, medium) directory pairs, in the order they are applied. */
  const Pairs: seq<(string, string)> :=
    [("phonensw", "phonenswmed"), ("pcnsw", "pcnswmed"), ("tabletnsw", "tabletnswmed")]

  /** A directory name as the pairs spell it: non-empty lower-case ASCII letters.
      For such a name the case-insensitive comparison of the `i` flag is ASCII
      lower-casing of the text. */
  predicate ValidName(n: string) {
    |n| > 0 && IsLowerAscii(n)
  }

  /** `x` spells `name` when case is ignored. */
  predicate CaseEq(x: string, name: string) {
    |x| == |name| && forall i :: 0 <= i < |x| ==> LowerChar(x[i]) == name[i]
  }

  /** `name/` (case-insensitively) occurs at index `k` of `s`. */
  predicate NameAt(s: string, name: string, k: nat) {
    k + |name| < |s| && s[k + |name|] == '/'
    && forall i :: 0 <= i < |name| ==> LowerChar(s[k + i]) == name[i]
  }

  /** A whole path segment spelled `name` starts at index `k`: at the start of the
      string or right after a `/`, and followed by `/`. */
  predicate SegmentAt(s: string, name: string, k: nat) {
    NameAt(s, name, k) && (k == 0 || s[k - 1] == '/')
  }

  /** A match of `(^|/)name/`: the index where it starts and the length of group 1. */
  datatype Match = Match(at: nat, group: nat)

  /** The pattern `(^|/)name/` tried at index `p`: the `^` alternative first, then `/`;
      the result is the length of group 1. */
  function GroupAt(s: string, name: string, p: nat): Option<nat> {
    if p == 0 && NameAt(s, name, 0) then Some(0)
    else if p < |s| && s[p] == '/' && NameAt(s, name, p + 1) then Some(1)
    else None
  }

  /** The smallest segment start that a match found at index `p` or later can have. */
  function Reach(p: nat): nat {
    if p == 0 then 0 else p + 1
  }

  /** The leftmost match at index `p` or later, found as the regular-expression
      engine scans: the match found is the leftmost whole segment `name`. */
  function SearchFrom(s: string, name: string, p: nat): (r: Option<Match>)
    ensures r.Some? ==>
      var m := r.value;
      p <= m.at && m.group <= 1
      && (m.group == 0 ==> m.at == 0)
      && (m.group == 1 ==> m.at < |s| && s[m.at] == '/')
      && SegmentAt(s, name, m.at + m.group)
      && forall k: nat :: Reach(p) <= k < m.at + m.group ==> !SegmentAt(s, name, k)
    ensures r.None? ==> forall k: nat :: Reach(p) <= k ==> !SegmentAt(s, name, k)
    decreases |s| - p
  {
    if p > |s| then None
    else
      match GroupAt(s, name, p)
      case Some(g) => Some(Match(p, g))
      case None => SearchFrom(s, name, p + 1)
  }

  /** `s.replace(new RegExp("(^|/)" + name + "/", "i"), "$1" + repl + "/")`. */
  function ReplaceFirst(s: string, name: string, repl: string): string {
    match SearchFrom(s, name, 0)
    case None => s
    case Some(m) =>
      s[..m.at] + s[m.at..m.at + m.group] + repl + "/" + s[m.at + m.group + |name| + 1..]
  }

  /** Without a whole segment `name` the URL is returned unchanged. */
  lemma ReplaceAbsent(s: string, name: string, repl: string)
    requires forall k: nat :: !SegmentAt(s, name, k)
    ensures ReplaceFirst(s, name, repl) == s
  {
  }

  /** The leftmost whole segment `name` is replaced by `repl`; the anchor before it
      (start of string or `/`), the `/` after it and everything else are kept. */
  lemma ReplaceLeftmost(s: string, name: string, repl: string, k: nat)
    requires SegmentAt(s, name, k)
    requires forall j: nat :: j < k ==> !SegmentAt(s, name, j)
    ensures ReplaceFirst(s, name, repl) == s[..k] + repl + s[k + |name|..]
  {
    var m := SearchFindsLeftmost(s, name, k);
    ReplaceFirstAt(s, name, repl, m);
    SpliceAt(s, m.at, k, |name|, repl);
  }

  /** The search finds the leftmost segment. */
  lemma SearchFindsLeftmost(s: string, name: string, k: nat) returns (m: Match)
    requires SegmentAt(s, name, k)
    requires forall j: nat :: j < k ==> !SegmentAt(s, name, j)
    ensures SearchFrom(s, name, 0) == Some(m) && m.at + m.group == k && m.at <= k
  {
    var r := SearchFrom(s, name, 0);
    assert Reach(0) <= k;
    m := r.value;
    SameSegment(s, name, m.at + m.group, k);
  }

  lemma ReplaceFirstAt(s: string, name: string, repl: string, m: Match)
    requires SearchFrom(s, name, 0) == Some(m)
    ensures ReplaceFirst(s, name, repl)
      == s[..m.at] + s[m.at..m.at + m.group] + repl + "/" + s[m.at + m.group + |name| + 1..]
  {
    var r := SearchFrom(s, name, 0);
    assert r.value == m;
  }

  /** Two segment starts with no segment before either are the same. */
  lemma SameSegment(s: string, name: string, g: nat, k: nat)
    requires SegmentAt(s, name, g) && SegmentAt(s, name, k)
    requires forall j: nat :: j < k ==> !SegmentAt(s, name, j)
    requires forall j: nat :: 0 <= j < g ==> !SegmentAt(s, name, j)
    ensures g == k
  {
  }

  lemma SpliceAt(s: string, a: nat, k: nat, n: nat, repl: string)
    requires a <= k && k + n < |s| && s[k + n] == '/'
    ensures s[..a] + s[a..a + (k - a)] + repl + "/" + s[k + n + 1..] == s[..k] + repl + s[k + n..]
  {
    assert s[..a] + s[a..k] == s[..k];
    assert "/" + s[k + n + 1..] == s[k + n..];
  }

  /** The directory the pair renames for `quality`, and the name it is renamed to:
      "medium" turns high into medium, any other quality medium into high. */
  function From(pair: (string, string), quality: string): string {
    if quality == "medium" then pair.0 else pair.1
  }

  function To(pair: (string, string), quality: string): string {
    if quality == "medium" then pair.1 else pair.0
  }

  /** The pairs applied in order to the same string, each replacing the first match. */
  function MapPairs(ps: seq<(string, string)>, quality: string, s: string): string
    decreases |ps|
  {
    if ps == [] then s
    else MapPairs(ps[1..], quality, ReplaceFirst(s, From(ps[0], quality), To(ps[0], quality)))
  }

  /** `mapQualitySource(sourceUrl, quality)`. */
  method MapQualitySource(sourceUrl: string, quality: string) returns (result: string)
    ensures result == MapPairs(Pairs, quality, sourceUrl)
  {
    result := sourceUrl;
    for i := 0 to |Pairs|
      invariant MapPairs(Pairs[i..], quality, result) == MapPairs(Pairs, quality, sourceUrl)
    {
      assert Pairs[i..][1..] == Pairs[i + 1..];
      var (highDir, mediumDir) := Pairs[i];
      if quality == "medium" {
        result := ReplaceFirst(result, highDir, mediumDir);
      } else {
        result := ReplaceFirst(result, mediumDir, highDir);
      }
    }
  }

  /** What the pairs do to a single path segment `x`: each pair in turn renames it
      when it spells the pair's source directory. */
  function MapSegment(ps: seq<(string, string)>, quality: string, x: string): string
    decreases |ps|
  {
    if ps == [] then x
    else MapSegment(ps[1..], quality, RenameSegment(ps[0], quality, x))
  }

  /** One pair acting on a single segment. */
  function RenameSegment(pair: (string, string), quality: string, x: string): string {
    if CaseEq(x, From(pair, quality)) then To(pair, quality) else x
  }

  /** The three pairs in turn. */
  lemma MapSegmentOfPairs(quality: string, x: string)
    ensures MapSegment(Pairs, quality, x)
      == RenameSegment(Pairs[2], quality, RenameSegment(Pairs[1], quality, RenameSegment(Pairs[0], quality, x)))
  {
    assert Pairs[1..][1..] == Pairs[2..] && Pairs[2..][1..] == [];
  }

  /** `p` ends where a path segment may begin. */
  predicate SegmentStart(p: string) {
    p == [] || p[|p| - 1] == '/'
  }

  /** No whole segment of `s` spells any of the six directories. */
  ghost predicate NoDirSegment(s: string) {
    forall i: nat, k: nat :: i < |Pairs| ==> !SegmentAt(s, Pairs[i].0, k) && !SegmentAt(s, Pairs[i].1, k)
  }

  lemma PairNamesValid(i: nat)
    requires i < |Pairs|
    ensures ValidName(Pairs[i].0) && ValidName(Pairs[i].1)
  {
  }

  /** The characters matched by a directory name are never `/`. */
  lemma NoSlashInName(s: string, n: string, k: nat)
    requires NameAt(s, n, k) && ValidName(n)
    ensures forall j :: k <= j < k + |n| ==> s[j] != '/'
  {
    forall j | k <= j < k + |n|
      ensures s[j] != '/'
    {
      assert LowerChar(s[k + (j - k)]) == n[j - k];
    }
  }

  /** Where a whole segment `n` can sit in `P + X + R` when `X` is one segment:
      inside `P`, exactly at `X`, or inside `R`. */
  lemma SegmentInSplice(P: string, X: string, R: string, n: string, k: nat)
    requires SegmentStart(P) && '/' !in X && R != [] && R[0] == '/' && ValidName(n)
    ensures SegmentAt(P + X + R, n, k) <==>
      (k < |P| && SegmentAt(P, n, k))
      || (k == |P| && CaseEq(X, n))
      || (k > |P| + |X| && SegmentAt(R, n, k - |P| - |X|))
  {
    var s := P + X + R;
    if k < |P| {
      if SegmentAt(s, n, k) {
        NoSlashInName(s, n, k);
        assert s[|P| - 1] == '/';
        assert k + |n| < |P|;
        assert forall j :: k <= j <= k + |n| ==> s[j] == P[j];
        assert SegmentAt(P, n, k);
      }
      if SegmentAt(P, n, k) {
        assert forall j :: k <= j <= k + |n| ==> s[j] == P[j];
        assert SegmentAt(s, n, k);
      }
    } else if k == |P| {
      if SegmentAt(s, n, k) {
        NoSlashInName(s, n, k);
        assert s[k + |X|] == '/';
        assert |n| <= |X|;
        assert forall j :: k <= j < k + |X| ==> s[j] == X[j - k];
        assert |n| == |X|;
        assert forall i :: 0 <= i < |n| ==> s[k + i] == X[i];
        assert CaseEq(X, n);
      }
      if CaseEq(X, n) {
        assert s[k + |n|] == R[0];
        assert forall i :: 0 <= i < |n| ==> s[k + i] == X[i];
        assert SegmentAt(s, n, k);
      }
    } else if k <= |P| + |X| {
      assert s[k - 1] == X[k - 1 - |P|];
      assert !SegmentAt(s, n, k);
    } else {
      var k' := k - |P| - |X|;
      assert forall i :: k - 1 <= i < |s| ==> s[i] == R[i - |P| - |X|];
      if SegmentAt(R, n, k') {
        assert SegmentAt(s, n, k);
      }
      if SegmentAt(s, n, k) {
        assert SegmentAt(R, n, k');
      }
    }
  }

  /** In a URL `P + X + R` whose only candidate segment is `X`, the pairs act on
      `X` alone, exactly as `MapSegment` says. */
  lemma {:induction false} MapOnOneSegment(j: nat, quality: string, P: string, X: string, R: string)
    requires j <= |Pairs|
    requires SegmentStart(P) && '/' !in X && R != [] && R[0] == '/'
    requires NoDirSegment(P) && NoDirSegment(R)
    ensures MapPairs(Pairs[j..], quality, P + X + R) == P + MapSegment(Pairs[j..], quality, X) + R
    decreases |Pairs| - j
  {
    if j < |Pairs| {
      var n, t := From(Pairs[j], quality), To(Pairs[j], quality);
      PairNamesValid(j);
      NoDirOf(P, j, quality);
      NoDirOf(R, j, quality);
      RenameOneSegment(P, X, R, n, t);
      assert Pairs[j..][1..] == Pairs[j + 1..];
      var y := RenameSegment(Pairs[j], quality, X);
      assert '/' !in t;
      MapOnOneSegment(j + 1, quality, P, y, R);
    }
  }

  /** What `NoDirSegment` says about the directory pair `j` renames from. */
  lemma NoDirOf(s: string, j: nat, quality: string)
    requires j < |Pairs| && NoDirSegment(s)
    ensures forall k: nat :: !SegmentAt(s, From(Pairs[j], quality), k)
  {
  }

  /** One pair acting on `P + X + R` when neither `P` nor `R` holds its directory. */
  lemma RenameOneSegment(P: string, X: string, R: string, n: string, t: string)
    requires SegmentStart(P) && '/' !in X && R != [] && R[0] == '/' && ValidName(n)
    requires forall k: nat :: !SegmentAt(P, n, k)
    requires forall k: nat :: !SegmentAt(R, n, k)
    ensures ReplaceFirst(P + X + R, n, t) == P + (if CaseEq(X, n) then t else X) + R
  {
    var s := P + X + R;
    forall k: nat | k != |P|
      ensures !SegmentAt(s, n, k)
    {
      SegmentInSplice(P, X, R, n, k);
    }
    SegmentInSplice(P, X, R, n, |P|);
    if CaseEq(X, n) {
      ReplaceLeftmost(s, n, t, |P|);
      assert s[..|P|] == P;
      assert s[|P| + |n|..] == R;
    } else {
      ReplaceAbsent(s, n, t);
    }
  }

  /** A lower-case segment spells `n` exactly when it is `n`. */
  lemma CaseEqLower(x: string, n: string)
    requires IsLowerAscii(x)
    ensures CaseEq(x, n) <==> x == n
  {
    if CaseEq(x, n) {
      assert forall i :: 0 <= i < |x| ==> x[i] == n[i];
    }
  }

  lemma SegmentOfName(i: nat)
    requires i < |Pairs|
    ensures MapSegment(Pairs, "medium", Pairs[i].0) == Pairs[i].1
    ensures MapSegment(Pairs, "high", Pairs[i].1) == Pairs[i].0
  {
    MapSegmentOfPairs("medium", Pairs[i].0);
    MapSegmentOfPairs("high", Pairs[i].1);
    PairNamesValid(i);
    CaseEqSelf(Pairs[i].0);
    CaseEqSelf(Pairs[i].1);
    assert !CaseEq("phonensw", "pcnswmed") by {
      assert LowerChar("phonensw"[1]) != "pcnswmed"[1];
    }
  }

  /** A valid name spells itself. */
  lemma CaseEqSelf(n: string)
    requires ValidName(n)
    ensures CaseEq(n, n)
  {
  }
  /** Round trip: a URL whose only directory segment is a high directory, spelled in
      lower case, gets that segment renamed to its medium partner, and mapping the
      result back to "high" restores the URL. */
  lemma RoundTrip(P: string, i: nat, R: string)
    requires i < |Pairs|
    requires SegmentStart(P) && R != [] && R[0] == '/'
    requires NoDirSegment(P) && NoDirSegment(R)
    ensures MapPairs(Pairs, "medium", P + Pairs[i].0 + R) == P + Pairs[i].1 + R
    ensures MapPairs(Pairs, "high", MapPairs(Pairs, "medium", P + Pairs[i].0 + R)) == P + Pairs[i].0 + R
  {
    PairNamesValid(i);
    assert Pairs[0..] == Pairs;
    SegmentOfName(i);
    MapOnOneSegment(0, "medium", P, Pairs[i].0, R);
    MapOnOneSegment(0, "high", P, Pairs[i].1, R);
  }

  /** A URL with no whole segment naming a source directory of `quality` is
      returned unchanged. */
  lemma {:induction false} NoMatchUnchanged(j: nat, quality: string, url: string)
    requires j <= |Pairs|
    requires forall i: nat, k: nat :: i < |Pairs| ==> !SegmentAt(url, From(Pairs[i], quality), k)
    ensures MapPairs(Pairs[j..], quality, url) == url
    decreases |Pairs| - j
  {
    if j < |Pairs| {
      ReplaceAbsent(url, From(Pairs[j], quality), To(Pairs[j], quality));
      assert Pairs[j..][1..] == Pairs[j + 1..];
      NoMatchUnchanged(j + 1, quality, url);
    }
  }

  /** A segment that does not spell a source directory of the requested tier, in
      any case, is never rewritten, when no other segment names a directory. */
  lemma AnySegmentNotNamedUntouched(quality: string, P: string, X: string, R: string)
    requires '/' !in X && forall i :: 0 <= i < |Pairs| ==> !CaseEq(X, From(Pairs[i], quality))
    requires SegmentStart(P) && R != [] && R[0] == '/'
    requires NoDirSegment(P) && NoDirSegment(R)
    ensures MapPairs(Pairs, quality, P + X + R) == P + X + R
  {
    assert Pairs[0..] == Pairs;
    MapOnOneSegment(0, quality, P, X, R);
    MapSegmentOfPairs(quality, X);
    assert !CaseEq(X, From(Pairs[0], quality)) && !CaseEq(X, From(Pairs[1], quality))
      && !CaseEq(X, From(Pairs[2], quality));
  }

  /** For example `xpcnsw` and `pcnswmedx`, which merely contain a directory name. */
  lemma ContainingSegmentUntouched(P: string, R: string)
    requires SegmentStart(P) && R != [] && R[0] == '/'
    requires NoDirSegment(P) && NoDirSegment(R)
    ensures MapPairs(Pairs, "medium", P + "xpcnsw" + R) == P + "xpcnsw" + R
    ensures MapPairs(Pairs, "high", P + "pcnswmedx" + R) == P + "pcnswmedx" + R
  {
    assert forall i :: 0 <= i < |Pairs| ==> |From(Pairs[i], "medium")| != 6 && |From(Pairs[i], "high")| != 9;
    AnySegmentNotNamedUntouched("medium", P, "xpcnsw", R);
    AnySegmentNotNamedUntouched("high", P, "pcnswmedx", R);
  }

  /** Matching ignores case but the replacement is lower case, so a directory
      spelled in upper case does not survive the round trip. */
  lemma UpperCaseLosesCase(P: string, R: string)
    requires SegmentStart(P) && R != [] && R[0] == '/'
    requires NoDirSegment(P) && NoDirSegment(R)
    ensures MapPairs(Pairs, "medium", P + "PCNSW" + R) == P + "pcnswmed" + R
    ensures MapPairs(Pairs, "high", P + "pcnswmed" + R) == P + "pcnsw" + R
    ensures P + "pcnsw" + R != P + "PCNSW" + R
  {
    assert Pairs[0..] == Pairs;
    UpperSegment();
    MapOnOneSegment(0, "medium", P, "PCNSW", R);
    SegmentOfName(1);
    MapOnOneSegment(0, "high", P, "pcnswmed", R);
    assert (P + "pcnsw" + R)[|P|] == 'p';
  }

  lemma UpperSegment()
    ensures MapSegment(Pairs, "medium", "PCNSW") == "pcnswmed"
  {
    MapSegmentOfPairs("medium", "PCNSW");
    assert CaseEq("PCNSW", "pcnsw");
  }
}
