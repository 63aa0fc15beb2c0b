/** What the gallery scripts ask of the browser, as values: the effects they
    cause (toasts, fetches, file saves) and the answers a fetch can give. */
module Browser {

  /** One observable effect: a toast message, a `fetch` of a URL, or a file save
      (an anchor with `href` and `download` that is clicked). */
  datatype Effect = Toast(message: string) | Fetch(url: string) | Save(href: string, fileName: string)

  /** How a `fetch` settles: the promise rejects (network error), or a response
      arrives with its `ok` flag and whether reading its body with `blob()`
      succeeds. */
  datatype FetchResult = Rejected | Response(ok: bool, bodyRead: bool)

  /** The attributes of a gallery `<img>` that the scripts read; a missing
      attribute reads as the empty string. */
  datatype ImageAttrs = ImageAttrs(
    src: string,
    dataOriginalSrc: string,
    dataDownload: string,
    dataTitle: string,
    dataDesc: string,
    dataPreview: string,
    alt: string)

  /** The toasts of a trace, in order. */
  function Toasts(t: seq<Effect>): (r: seq<string>)
  {
    if t == [] then []
    else (if t[0].Toast? then [t[0].message] else []) + Toasts(t[1..])
  }

  /** The URLs fetched in a trace, in order. */
  function Fetches(t: seq<Effect>): (r: seq<string>)
  {
    if t == [] then []
    else (if t[0].Fetch? then [t[0].url] else []) + Fetches(t[1..])
  }

  /** The saves of a trace, in order. */
  function Saves(t: seq<Effect>): (r: seq<Effect>)
    ensures forall i :: 0 <= i < |r| ==> r[i].Save?
  {
    if t == [] then []
    else (if t[0].Save? then [t[0]] else []) + Saves(t[1..])
  }

  /** Each projection holds exactly the effects of its kind that the trace holds. */
  lemma {:induction false} ProjectionMembers(t: seq<Effect>)
    ensures forall m :: m in Toasts(t) <==> Toast(m) in t
    ensures forall u :: u in Fetches(t) <==> Fetch(u) in t
    ensures forall e :: e in Saves(t) <==> e.Save? && e in t
  {
    if t != [] {
      ProjectionMembers(t[1..]);
      assert t == [t[0]] + t[1..];
    }
  }

  /** The projections distribute over concatenation of traces. */
  lemma {:induction false} ToastsConcat(a: seq<Effect>, b: seq<Effect>)
    ensures Toasts(a + b) == Toasts(a) + Toasts(b)
  {
    if a == [] {
      assert a + b == b;
    } else {
      assert (a + b)[0] == a[0] && (a + b)[1..] == a[1..] + b;
      ToastsConcat(a[1..], b);
      var h := if a[0].Toast? then [a[0].message] else [];
      assert Toasts(a + b) == h + (Toasts(a[1..]) + Toasts(b));
      assert h + (Toasts(a[1..]) + Toasts(b)) == (h + Toasts(a[1..])) + Toasts(b);
    }
  }

  lemma {:induction false} FetchesConcat(a: seq<Effect>, b: seq<Effect>)
    ensures Fetches(a + b) == Fetches(a) + Fetches(b)
  {
    if a == [] {
      assert a + b == b;
    } else {
      assert (a + b)[0] == a[0] && (a + b)[1..] == a[1..] + b;
      FetchesConcat(a[1..], b);
      var h := if a[0].Fetch? then [a[0].url] else [];
      assert Fetches(a + b) == h + (Fetches(a[1..]) + Fetches(b));
      assert h + (Fetches(a[1..]) + Fetches(b)) == (h + Fetches(a[1..])) + Fetches(b);
    }
  }

  lemma {:induction false} SavesConcat(a: seq<Effect>, b: seq<Effect>)
    ensures Saves(a + b) == Saves(a) + Saves(b)
  {
    if a == [] {
      assert a + b == b;
    } else {
      assert (a + b)[1..] == a[1..] + b;
      SavesConcat(a[1..], b);
    }
  }

  /** The projections of a one-effect trace. */
  lemma ProjectOne(e: Effect)
    ensures Toasts([e]) == (if e.Toast? then [e.message] else [])
    ensures Fetches([e]) == (if e.Fetch? then [e.url] else [])
    ensures Saves([e]) == (if e.Save? then [e] else [])
  {
    assert [e][1..] == [];
  }

  /** The projections of a trace that starts with a toast and a fetch. */
  lemma StartProjections(m: string, u: string, rest: seq<Effect>)
    ensures Toasts([Toast(m), Fetch(u)] + rest) == [m] + Toasts(rest)
    ensures Fetches([Toast(m), Fetch(u)] + rest) == [u] + Fetches(rest)
    ensures Saves([Toast(m), Fetch(u)] + rest) == Saves(rest)
  {
    var start := [Toast(m), Fetch(u)];
    ToastsConcat(start, rest);
    FetchesConcat(start, rest);
    SavesConcat(start, rest);
    PairProjections(Toast(m), Fetch(u));
  }

  lemma PairProjections(a: Effect, b: Effect)
    ensures Fetches([a, b]) == Fetches([a]) + Fetches([b])
    ensures Toasts([a, b]) == Toasts([a]) + Toasts([b])
    ensures Saves([a, b]) == Saves([a]) + Saves([b])
  {
    assert [a, b] == [a] + [b];
    FetchesConcat([a], [b]);
    ToastsConcat([a], [b]);
    SavesConcat([a], [b]);
    ProjectOne(a);
    ProjectOne(b);
  }
}
