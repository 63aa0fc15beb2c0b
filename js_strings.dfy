/** The JavaScript string built-ins the gallery scripts rely on, as functions on
    `string` (a sequence of code points). */
module JsStrings {

  /** LineTerminator code points of ECMAScript: what `.` in a regular expression
      does not match. */
  predicate IsLineTerminator(c: char) {
    c == '\n' || c == '\r' || c == '\U{2028}' || c == '\U{2029}'
  }

  /** The `\s` class of a regular expression, which is also the set of code
      points `String.prototype.trim` removes: WhiteSpace and LineTerminator. */
  predicate IsWhiteSpace(c: char) {
    c == '\t' || c == '\U{B}' || c == '\U{C}' || c == ' ' || c == '\U{A0}' || c == '\U{FEFF}'
    || c == '\U{1680}' || ('\U{2000}' <= c <= '\U{200A}') || c == '\U{202F}' || c == '\U{205F}'
    || c == '\U{3000}' || IsLineTerminator(c)
  }

  predicate NoWhiteSpace(s: string) {
    forall i :: 0 <= i < |s| ==> !IsWhiteSpace(s[i])
  }

  lemma NoWhiteSpaceJoin(a: string, b: string)
    requires NoWhiteSpace(a) && NoWhiteSpace(b)
    ensures NoWhiteSpace(a + b)
  {
    assert forall i :: |a| <= i < |a + b| ==> (a + b)[i] == b[i - |a|];
  }

  predicate AllWhiteSpace(s: string) {
    forall i :: 0 <= i < |s| ==> IsWhiteSpace(s[i])
  }

  lemma AllWhiteSpaceJoin(a: string, b: string)
    requires AllWhiteSpace(a) && AllWhiteSpace(b)
    ensures AllWhiteSpace(a + b)
  {
    assert forall i :: |a| <= i < |a + b| ==> (a + b)[i] == b[i - |a|];
  }

  lemma AllWhiteSpaceCons(c: char, w: string)
    requires IsWhiteSpace(c) && AllWhiteSpace(w)
    ensures AllWhiteSpace([c] + w)
  {
    assert forall i :: 1 <= i < |[c] + w| ==> ([c] + w)[i] == w[i - 1];
  }

  /** Lower-casing of one code point, for the ASCII letters. */
  function LowerChar(c: char): char {
    if 'A' <= c <= 'Z' then (c as int + 32) as char else c
  }

  /** `String.prototype.toLowerCase`, restricted to ASCII case mapping. */
  function ToLowerCase(s: string): string {
    seq(|s|, i requires 0 <= i < |s| => LowerChar(s[i]))
  }

  predicate IsLowerAscii(s: string) {
    forall i :: 0 <= i < |s| ==> 'a' <= s[i] <= 'z'
  }

  /** Lower-casing twice is lower-casing once, and lower-case ASCII text is kept. */
  lemma ToLowerCaseIdempotent(s: string)
    ensures ToLowerCase(ToLowerCase(s)) == ToLowerCase(s)
    ensures IsLowerAscii(s) ==> ToLowerCase(s) == s
  {
  }

  /** JavaScript `a || b` where both operands are strings: the empty string is falsy. */
  function Or(a: string, b: string): string {
    if a != "" then a else b
  }

  /** `q` occurs in `s` starting at index `i`. */
  predicate OccursAt(s: string, q: string, i: nat) {
    i + |q| <= |s| && s[i..i + |q|] == q
  }

  /** Does `q` occur in `s` at index `i` or later? */
  function IncludesFrom(s: string, q: string, i: nat): (r: bool)
    ensures r <==> exists j: nat :: i <= j && OccursAt(s, q, j)
    decreases |s| - i
  {
    if i + |q| > |s| then false
    else if s[i..i + |q|] == q then assert OccursAt(s, q, i); true
    else IncludesFrom(s, q, i + 1)
  }

  /** `String.prototype.includes`. */
  function Includes(s: string, q: string): (r: bool)
    ensures r <==> exists j: nat :: OccursAt(s, q, j)
  {
    IncludesFrom(s, q, 0)
  }

  /** The number of white space code points `s` starts with. */
  function LeadingWhiteSpace(s: string): (k: nat)
    ensures k <= |s| && AllWhiteSpace(s[..k])
    ensures k < |s| ==> !IsWhiteSpace(s[k])
  {
    if s != [] && IsWhiteSpace(s[0]) then
      var k := LeadingWhiteSpace(s[1..]);
      assert s[..k + 1] == [s[0]] + s[1..][..k];
      AllWhiteSpaceCons(s[0], s[1..][..k]);
      k + 1
    else 0
  }

  /** `String.prototype.trimStart`: the longest suffix that does not start with white space. */
  function TrimStart(s: string): (r: string)
    ensures |r| <= |s| && r == s[|s| - |r|..]
    ensures AllWhiteSpace(s[..|s| - |r|])
    ensures r != [] ==> !IsWhiteSpace(r[0])
  {
    s[LeadingWhiteSpace(s)..]
  }

  /** `String.prototype.trimEnd`: the longest prefix that does not end with white space. */
  function TrimEnd(s: string): (r: string)
    ensures |r| <= |s| && r == s[..|r|]
    ensures AllWhiteSpace(s[|r|..])
    ensures r != [] ==> !IsWhiteSpace(r[|r| - 1])
  {
    if s != [] && IsWhiteSpace(s[|s| - 1]) then
      var r := TrimEnd(s[..|s| - 1]);
      assert s[..|s| - 1][|r|..] == s[|r|..|s| - 1];
      assert s[|r|..] == s[|r|..|s| - 1] + [s[|s| - 1]];
      AllWhiteSpaceJoin(s[|r|..|s| - 1], [s[|s| - 1]]);
      r
    else s
  }

  /** `r` is `s[a..]` up to white space: what precedes and follows it in `s` is all
      white space. */
  predicate Window(s: string, r: string, a: nat) {
    a + |r| <= |s| && r == s[a..a + |r|] && AllWhiteSpace(s[..a]) && AllWhiteSpace(s[a + |r|..])
  }

  /** `String.prototype.trim`: `s` without its leading and trailing white space. */
  function Trim(s: string): (r: string)
    ensures Window(s, r, |s| - |TrimStart(s)|)
    ensures r != [] ==> !IsWhiteSpace(r[0]) && !IsWhiteSpace(r[|r| - 1])
  {
    var t := TrimStart(s);
    var r := TrimEnd(t);
    TrimWindow(s, t, r);
    r
  }

  lemma TrimWindow(s: string, t: string, r: string)
    requires |t| <= |s| && t == s[|s| - |t|..] && AllWhiteSpace(s[..|s| - |t|])
    requires |r| <= |t| && r == t[..|r|] && AllWhiteSpace(t[|r|..])
    ensures Window(s, r, |s| - |t|)
  {
    var a := |s| - |t|;
    assert s[a..][..|r|] == s[a..a + |r|];
    assert s[a..][|r|..] == s[a + |r|..];
  }

  /** `s.replace(/\s+/g, "_")`: every maximal run of white space becomes one `_`
      (`ReplaceRunSplits`). Read one character at a time, white space followed by
      more white space is dropped and the last of a run becomes the `_`. */
  function ReplaceWhiteSpaceRuns(s: string): (r: string)
    ensures NoWhiteSpace(r)
    ensures NoWhiteSpace(s) ==> r == s
    ensures |r| <= |s| && (r == [] <==> s == [])
  {
    if s == [] then []
    else if !IsWhiteSpace(s[0]) then [s[0]] + ReplaceWhiteSpaceRuns(s[1..])
    else if |s| > 1 && IsWhiteSpace(s[1]) then ReplaceWhiteSpaceRuns(s[1..])
    else "_" + ReplaceWhiteSpaceRuns(s[1..])
  }

  /** Text that does not end in white space is replaced independently of what
      follows it: no run crosses the boundary. */
  lemma {:induction false} ReplaceConcat(a: string, t: string)
    requires a == [] || !IsWhiteSpace(a[|a| - 1])
    ensures ReplaceWhiteSpaceRuns(a + t) == ReplaceWhiteSpaceRuns(a) + ReplaceWhiteSpaceRuns(t)
  {
    if a == [] {
      assert a + t == t;
    } else {
      var s := a + t;
      assert s[0] == a[0] && s[1..] == a[1..] + t;
      assert |a| > 1 ==> s[1] == a[1];
      ReplaceConcat(a[1..], t);
    }
  }

  /** A whole leading run of white space, however long, becomes a single `_`. */
  lemma {:induction false} ReplaceLeadingRun(w: string, b: string)
    requires w != [] && AllWhiteSpace(w)
    requires b == [] || !IsWhiteSpace(b[0])
    ensures ReplaceWhiteSpaceRuns(w + b) == "_" + ReplaceWhiteSpaceRuns(b)
  {
    var s := w + b;
    assert s[0] == w[0] && s[1..] == w[1..] + b;
    if |w| > 1 {
      assert s[1] == w[1];
      ReplaceLeadingRun(w[1..], b);
    }
  }

  /** Each maximal run of white space becomes exactly one `_`: at a run `w` with
      `a` not ending and `b` not starting in white space, the replacement splits
      into that of `a`, one `_`, and that of `b`. */
  lemma ReplaceRunSplits(a: string, w: string, b: string)
    requires w != [] && AllWhiteSpace(w)
    requires a == [] || !IsWhiteSpace(a[|a| - 1])
    requires b == [] || !IsWhiteSpace(b[0])
    ensures ReplaceWhiteSpaceRuns(a + w + b) == ReplaceWhiteSpaceRuns(a) + "_" + ReplaceWhiteSpaceRuns(b)
  {
    var s := a + w + b;
    SplitAtRun(s, a, w, b);
  }

  /** `ReplaceRunSplits` for a string `s` known to be `a + w + b`. */
  lemma SplitAtRun(s: string, a: string, w: string, b: string)
    requires s == a + w + b && w != [] && AllWhiteSpace(w)
    requires a == [] || !IsWhiteSpace(a[|a| - 1])
    requires b == [] || !IsWhiteSpace(b[0])
    ensures ReplaceWhiteSpaceRuns(s) == ReplaceWhiteSpaceRuns(a) + "_" + ReplaceWhiteSpaceRuns(b)
  {
    var t := w + b;
    ConcatAssoc(a, w, b);
    ReplaceConcat(a, t);
    ReplaceLeadingRun(w, b);
    ConcatAssoc(ReplaceWhiteSpaceRuns(a), "_", ReplaceWhiteSpaceRuns(b));
  }

  /** Concatenation is associative; stated on its own so that proofs about
      replacements need not find it among their other facts. */
  lemma ConcatAssoc(x: string, y: string, z: string)
    ensures x + (y + z) == x + y + z
  {
  }

  /** `s.split(sep).pop()`: the text after the last `sep` (all of `s` when it has none). */
  function AfterLast(s: string, sep: char): (r: string)
    ensures |r| <= |s| && r == s[|s| - |r|..]
    ensures sep !in r
    ensures |r| < |s| ==> s[|s| - |r| - 1] == sep
  {
    match LastIndexOf(s, sep)
    case None => s
    case Some(i) => s[i + 1..]
  }

  /** The index of the last `c` in `s`, if any. */
  function LastIndexOf(s: string, c: char): (r: Option<nat>)
    ensures r.None? <==> c !in s
    ensures r.Some? ==> r.value < |s| && s[r.value] == c && c !in s[r.value + 1..]
  {
    var r := LastIndexBefore(s, c, |s|);
    if r.Some? then
      var i, t := r.value, s[r.value + 1..];
      assert forall k :: 0 <= k < |t| ==> t[k] == s[i + 1 + k];
      r
    else r
  }

  /** The index of the last `c` among the first `n` code points of `s`. */
  function LastIndexBefore(s: string, c: char, n: nat): (r: Option<nat>)
    requires n <= |s|
    ensures r.None? ==> forall j :: 0 <= j < n ==> s[j] != c
    ensures r.Some? ==> r.value < n && s[r.value] == c && forall j :: r.value < j < n ==> s[j] != c
  {
    if n == 0 then None
    else if s[n - 1] == c then Some(n - 1)
    else LastIndexBefore(s, c, n - 1)
  }

  /** `s.split(/[?#]/)[0]`: `s` up to its first `?` or `#`. */
  function BeforeQuery(s: string): (r: string)
    ensures |r| <= |s| && r == s[..|r|]
    ensures '?' !in r && '#' !in r
    ensures |r| < |s| ==> s[|r|] == '?' || s[|r|] == '#'
  {
    if s == [] || s[0] == '?' || s[0] == '#' then []
    else [s[0]] + BeforeQuery(s[1..])
  }

  datatype Option<T> = None | Some(value: T)
}
