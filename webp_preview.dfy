/** Showing a lightweight `.webp` preview in place of each gallery image, and
    falling back to the original when the preview fails to load
    (`buildWebpPreviewSrc` and `applyWebpPreviews` in main.js). */
module WebpPreview {
  import opened JsStrings

  /** The directories whose images have a preview in a sibling `webp/` directory. */
  predicate IsPreviewDir(d: string) {
    d == "nsi" || d == "phonensw" || d == "phonenswmed" || d == "pcnsw" || d == "pcnswmed"
    || d == "tabletnsw" || d == "tabletnswmed"
  }

  /** The three groups of `^(.+\/)?([^/]+)\/([^/]+)$`. */
  datatype PathParts = PathParts(prefix: string, dir: string, file: string)

  predicate NoLineTerminator(s: string) {
    forall i :: 0 <= i < |s| ==> !IsLineTerminator(s[i])
  }

  /** `^(.+\/)?([^/]+)\/([^/]+)$` matches `clean` with groups `p`: the optional
      prefix group is absent (empty) or is at least one character other than a line
      terminator followed by `/`; the directory and the file name are non-empty and
      contain no `/`. */
  predicate MatchesPath(clean: string, p: PathParts) {
    clean == p.prefix + p.dir + "/" + p.file
    && p.dir != [] && '/' !in p.dir && p.file != [] && '/' !in p.file
    && (p.prefix == []
        || (|p.prefix| >= 2 && p.prefix[|p.prefix| - 1] == '/'
            && NoLineTerminator(p.prefix[..|p.prefix| - 1])))
  }

  lemma LastAt(s: string, c: char, i: nat)
    requires i < |s| && s[i] == c && c !in s[i + 1..]
    ensures LastIndexOf(s, c) == Some(i)
  {
    assert s[i] in s;
  }

  /** The match of the path pattern, found from the last two slashes; the match is
      unique when it exists. */
  function SplitPath(clean: string): (r: Option<PathParts>)
    ensures forall p :: MatchesPath(clean, p) <==> r == Some(p)
  {
    match LastIndexOf(clean, '/')
    case None =>
      NoMatchWithoutSlash(clean);
      None
    case Some(b) =>
      if b == 0 || b + 1 == |clean| then
        NoMatchAtEdge(clean, b);
        None
      else
        match LastIndexOf(clean[..b], '/')
        case None =>
          SplitEnd(clean, b);
          Some(PathParts("", clean[..b], clean[b + 1..]))
        case Some(a) =>
          SplitMiddleUnique(clean, b, a);
          if a == 0 || a + 1 == b || !NoLineTerminator(clean[..a]) then None
          else
            SplitMiddleMatch(clean, b, a);
            Some(PathParts(clean[..a + 1], clean[a + 1..b], clean[b + 1..]))
  }

  /** Every match ends with the slash found last. */
  lemma MatchEndsAtLastSlash(clean: string, p: PathParts)
    requires clean == p.prefix + p.dir + "/" + p.file && '/' !in p.file
    ensures LastIndexOf(clean, '/') == Some(|p.prefix| + |p.dir|)
    ensures clean[..|p.prefix| + |p.dir|] == p.prefix + p.dir
    ensures clean[|p.prefix| + |p.dir| + 1..] == p.file
  {
    EndsAtLastSlash(clean, p.prefix + p.dir, p.file);
  }

  lemma EndsAtLastSlash(clean: string, head: string, tail: string)
    requires clean == head + "/" + tail && '/' !in tail
    ensures LastIndexOf(clean, '/') == Some(|head|)
    ensures clean[..|head|] == head && clean[|head| + 1..] == tail
  {
    AroundSlash(head, tail);
    SlashBeforeTail(clean, head, tail);
  }

  lemma SlashBeforeTail(s: string, head: string, tail: string)
    requires s == head + "/" + tail && '/' !in tail
    ensures LastIndexOf(s, '/') == Some(|head|)
  {
    AroundSlash(head, tail);
    LastAt(s, '/', |head|);
  }

  /** The parts of `head + "/" + tail`. */
  lemma AroundSlash(head: string, tail: string)
    ensures (head + "/" + tail)[..|head|] == head && (head + "/" + tail)[|head|] == '/'
    ensures (head + "/" + tail)[|head| + 1..] == tail
  {
  }

  lemma NoMatchWithoutSlash(clean: string)
    requires LastIndexOf(clean, '/').None?
    ensures forall p :: !MatchesPath(clean, p)
  {
    forall p | MatchesPath(clean, p)
      ensures false
    {
      MatchEndsAtLastSlash(clean, p);
    }
  }

  lemma NoMatchAtEdge(clean: string, b: nat)
    requires LastIndexOf(clean, '/') == Some(b) && (b == 0 || b + 1 == |clean|)
    ensures forall p :: !MatchesPath(clean, p)
  {
    forall p | MatchesPath(clean, p)
      ensures false
    {
      MatchEndsAtLastSlash(clean, p);
    }
  }

  /** The split when `clean[..b]` holds no slash. */
  lemma SplitEnd(clean: string, b: nat)
    requires 0 < b && b + 1 < |clean| && LastIndexOf(clean, '/') == Some(b)
    requires LastIndexOf(clean[..b], '/').None?
    ensures forall p :: MatchesPath(clean, p) <==> p == PathParts("", clean[..b], clean[b + 1..])
  {
    SplitAtLastSlash(clean, b);
    forall p | MatchesPath(clean, p)
      ensures p == PathParts("", clean[..b], clean[b + 1..])
    {
      MatchEndsAtLastSlash(clean, p);
    }
  }

  lemma SplitAtLastSlash(clean: string, b: nat)
    requires 0 < b && b + 1 < |clean| && clean[b] == '/'
    requires '/' !in clean[..b] && '/' !in clean[b + 1..]
    ensures MatchesPath(clean, PathParts("", clean[..b], clean[b + 1..]))
  {
    assert clean == "" + clean[..b] + "/" + clean[b + 1..];
  }

  /** When `clean[..b]` holds its last slash at `a`, a match has its prefix up to `a`. */
  lemma SplitMiddleUnique(clean: string, b: nat, a: nat)
    requires b + 1 < |clean| && LastIndexOf(clean, '/') == Some(b)
    requires LastIndexOf(clean[..b], '/') == Some(a)
    ensures forall p :: MatchesPath(clean, p) ==>
      a != 0 && a + 1 != b && NoLineTerminator(clean[..a])
      && p == PathParts(clean[..a + 1], clean[a + 1..b], clean[b + 1..])
  {
    forall p | MatchesPath(clean, p)
      ensures a != 0 && a + 1 != b && NoLineTerminator(clean[..a])
      ensures p == PathParts(clean[..a + 1], clean[a + 1..b], clean[b + 1..])
    {
      MatchPrefixAtSecondSlash(clean, b, a, p);
    }
  }

  lemma MatchPrefixAtSecondSlash(clean: string, b: nat, a: nat, p: PathParts)
    requires b + 1 < |clean| && LastIndexOf(clean, '/') == Some(b)
    requires LastIndexOf(clean[..b], '/') == Some(a)
    requires MatchesPath(clean, p)
    ensures |p.prefix| == a + 1 && a != 0 && a + 1 != b && NoLineTerminator(clean[..a])
    ensures p == PathParts(clean[..a + 1], clean[a + 1..b], clean[b + 1..])
  {
    MatchEndsAtLastSlash(clean, p);
    SplitAtSecondSlash(clean, b, a, p);
  }

  /** The same, from what a match says about the text around its last slash. */
  lemma SplitAtSecondSlash(clean: string, b: nat, a: nat, p: PathParts)
    requires b + 1 < |clean| && b == |p.prefix| + |p.dir|
    requires clean[..b] == p.prefix + p.dir && clean[b + 1..] == p.file
    requires LastIndexOf(clean[..b], '/') == Some(a)
    requires p.dir != [] && '/' !in p.dir
    requires p.prefix == [] || (|p.prefix| >= 2 && p.prefix[|p.prefix| - 1] == '/'
                                && NoLineTerminator(p.prefix[..|p.prefix| - 1]))
    ensures |p.prefix| == a + 1 && a != 0 && a + 1 != b && NoLineTerminator(clean[..a])
    ensures p == PathParts(clean[..a + 1], clean[a + 1..b], clean[b + 1..])
  {
    HeadAtSecondSlash(clean, b, a, p.prefix, p.dir);
  }

  lemma HeadAtSecondSlash(clean: string, b: nat, a: nat, prefix: string, dir: string)
    requires b <= |clean| && clean[..b] == prefix + dir && '/' !in dir
    requires prefix == [] || prefix[|prefix| - 1] == '/'
    requires LastIndexOf(clean[..b], '/') == Some(a)
    ensures |prefix| == a + 1 && prefix == clean[..a + 1] && dir == clean[a + 1..b]
    ensures prefix[..|prefix| - 1] == clean[..a]
  {
    var head := clean[..b];
    PrefixEndsAtLastSlash(head, prefix, dir, a);
    assert prefix == head[..a + 1] && dir == head[a + 1..];
    assert head[..a + 1] == clean[..a + 1] && head[a + 1..] == clean[a + 1..b];
  }

  /** In `prefix + dir`, where `dir` has no slash and `prefix` is empty or ends with
      one, the last slash closes `prefix`. */
  lemma PrefixEndsAtLastSlash(head: string, prefix: string, dir: string, a: nat)
    requires head == prefix + dir && '/' !in dir && LastIndexOf(head, '/') == Some(a)
    requires prefix == [] || prefix[|prefix| - 1] == '/'
    ensures |prefix| == a + 1
  {
    assert prefix != [] by {
      assert head[a] in head;
    }
    assert head[|prefix|..] == dir;
    LastAt(head, '/', |prefix| - 1);
  }

  /** ... and when the checks pass the split through `a` and `b` is a match. */
  lemma SplitMiddleMatch(clean: string, b: nat, a: nat)
    requires b + 1 < |clean| && LastIndexOf(clean, '/') == Some(b)
    requires LastIndexOf(clean[..b], '/') == Some(a)
    requires a != 0 && a + 1 != b && NoLineTerminator(clean[..a])
    ensures MatchesPath(clean, PathParts(clean[..a + 1], clean[a + 1..b], clean[b + 1..]))
  {
    SlashesAt(clean, b, a);
    SplitAtSlashes(clean, b, a);
  }

  /** What the two searches for the last slash say about `clean`. */
  lemma SlashesAt(clean: string, b: nat, a: nat)
    requires b + 1 < |clean| && LastIndexOf(clean, '/') == Some(b)
    requires LastIndexOf(clean[..b], '/') == Some(a)
    ensures a < b && clean[b] == '/' && clean[a] == '/'
    ensures '/' !in clean[b + 1..] && '/' !in clean[a + 1..b]
  {
    assert clean[a + 1..b] == clean[..b][a + 1..];
  }

  lemma SplitAtSlashes(clean: string, b: nat, a: nat)
    requires 0 < a && a + 1 < b && b + 1 < |clean| && clean[b] == '/' && clean[a] == '/'
    requires '/' !in clean[b + 1..] && '/' !in clean[a + 1..b] && NoLineTerminator(clean[..a])
    ensures MatchesPath(clean, PathParts(clean[..a + 1], clean[a + 1..b], clean[b + 1..]))
  {
    assert clean[..a + 1] + clean[a + 1..b] == clean[..b];
    assert clean[..b] + "/" + clean[b + 1..] == clean;
    assert clean[..a + 1][..a] == clean[..a];
  }

  /** `fileName.replace(/\.[^.]+$/, "")`: the last `.ext` is removed when it has at
      least one character. */
  function DropExtension(file: string): (r: string)
    ensures r != file <==> (file != [] && file[|file| - 1] != '.' && '.' in file)
    ensures r != file ==> |r| < |file| && r == file[..|r|] && file[|r|] == '.' && '.' !in file[|r| + 1..]
  {
    match LastIndexOf(file, '.')
    case None => file
    case Some(d) =>
      if d + 1 == |file| then file
      else
        assert file[|file| - 1] in file[d + 1..];
        file[..d]
  }

  /** `buildWebpPreviewSrc(src)`: `prefix + "webp/" + base + ".webp"` for an image
      in a preview directory, where `base` is the file name without its extension,
      all after the first `?` or `#` being ignored; null (`None`) otherwise. */
  function BuildWebpPreviewSrc(src: string): (r: Option<string>)
    ensures src == "" ==> r == None
    ensures (forall p :: !MatchesPath(BeforeQuery(src), p)) ==> r == None
    ensures forall p :: src != "" && MatchesPath(BeforeQuery(src), p) ==>
      r == if IsPreviewDir(p.dir) && DropExtension(p.file) != ""
           then Some(p.prefix + "webp/" + DropExtension(p.file) + ".webp")
           else None
  {
    if src == "" then None
    else
      match SplitPath(BeforeQuery(src))
      case None => None
      case Some(p) =>
        if !IsPreviewDir(p.dir) then None
        else
          var base := DropExtension(p.file);
          if base == "" then None else Some(p.prefix + "webp/" + base + ".webp")
  }

  lemma BeforeQueryOfPlain(s: string)
    requires '?' !in s && '#' !in s
    ensures BeforeQuery(s) == s
  {
  }

  /** Everything from the first `?` or `#` on plays no part. */
  lemma {:induction false} BeforeQueryCut(s: string, c: char, tail: string)
    requires '?' !in s && '#' !in s && (c == '?' || c == '#')
    ensures BeforeQuery(s + [c] + tail) == s
  {
    if s != [] {
      assert (s + [c] + tail)[1..] == s[1..] + [c] + tail;
      BeforeQueryCut(s[1..], c, tail);
    }
  }

  /** A query string or fragment does not change the preview. */
  lemma QueryIgnored(s: string, c: char, tail: string)
    requires s != "" && '?' !in s && '#' !in s && (c == '?' || c == '#')
    ensures BuildWebpPreviewSrc(s + [c] + tail) == BuildWebpPreviewSrc(s)
  {
    BeforeQueryCut(s, c, tail);
    BeforeQueryOfPlain(s);
  }

  /** A preview is itself in the `webp` directory, which has no preview. */
  lemma NoPreviewOfPreview(src: string)
    requires BuildWebpPreviewSrc(src).Some?
    ensures BuildWebpPreviewSrc(BuildWebpPreviewSrc(src).value) == None
  {
    var p, base := PreviewParts(src);
    var preview := p.prefix + "webp/" + base + ".webp";
    PreviewIsMatch(BeforeQuery(src), p, base);
    BeforeQueryOfPlain(preview);
    WebpHasNoPreview(preview, PathParts(p.prefix, "webp", base + ".webp"));
  }

  /** The match and the base name a preview is built from. */
  lemma PreviewParts(src: string) returns (p: PathParts, base: string)
    requires BuildWebpPreviewSrc(src).Some?
    ensures MatchesPath(BeforeQuery(src), p) && '?' !in BeforeQuery(src) && '#' !in BeforeQuery(src)
    ensures base != "" && |base| <= |p.file| && base == p.file[..|base|]
    ensures BuildWebpPreviewSrc(src) == Some(p.prefix + "webp/" + base + ".webp")
  {
    p := SplitPath(BeforeQuery(src)).value;
    base := DropExtension(p.file);
  }

  lemma WebpHasNoPreview(s: string, q: PathParts)
    requires MatchesPath(s, q) && q.dir == "webp" && BeforeQuery(s) == s
    ensures BuildWebpPreviewSrc(s) == None
  {
    assert SplitPath(s) == Some(q);
  }

  /** The preview path built from a match is matched with directory `webp`, and it
      holds no `?` or `#` when the cleaned source holds none. */
  lemma PreviewIsMatch(clean: string, p: PathParts, base: string)
    requires MatchesPath(clean, p) && '?' !in clean && '#' !in clean
    requires base != "" && |base| <= |p.file| && base == p.file[..|base|]
    ensures MatchesPath(p.prefix + "webp/" + base + ".webp", PathParts(p.prefix, "webp", base + ".webp"))
    ensures '?' !in p.prefix + "webp/" + base + ".webp" && '#' !in p.prefix + "webp/" + base + ".webp"
  {
    var n := |p.prefix| + |p.dir| + 1;
    assert p.prefix == clean[..|p.prefix|];
    assert p.file == clean[n..];
    NotInSlice(clean, 0, |p.prefix|);
    NotInSlice(clean, n, |clean|);
    NotInSlice(p.file, 0, |base|);
    assert p.prefix + "webp/" + base + ".webp" == p.prefix + "webp" + "/" + (base + ".webp");
  }

  lemma NotInSlice(s: string, i: nat, j: nat)
    requires i <= j <= |s|
    ensures forall c :: c !in s ==> c !in s[i..j]
  {
    assert forall k :: 0 <= k < j - i ==> s[i..j][k] == s[i + k];
  }

  /** The preview of a path without query or fragment whose last two segments are
      `dir` and `file`, read off the match. */
  lemma PreviewOfPath(prefix: string, dir: string, file: string)
    requires MatchesPath(prefix + dir + "/" + file, PathParts(prefix, dir, file))
    requires '?' !in prefix + dir + "/" + file && '#' !in prefix + dir + "/" + file
    ensures BuildWebpPreviewSrc(prefix + dir + "/" + file)
      == if IsPreviewDir(dir) && DropExtension(file) != ""
         then Some(prefix + "webp/" + DropExtension(file) + ".webp") else None
  {
    BeforeQueryOfPlain(prefix + dir + "/" + file);
  }

  /** The extension removed is the one after the last dot. */
  lemma DropExtensionOf(name: string, ext: string)
    requires ext != "" && '.' !in ext
    ensures DropExtension(name + "." + ext) == name
  {
    var file := name + "." + ext;
    assert file[|name| + 1..] == ext;
    LastAt(file, '.', |name|);
    assert file[..|name|] == name;
  }

  /** For example "/wall/pcnsw/sunset.jpg" is previewed by "/wall/webp/sunset.webp":
      the preview directory is replaced by its sibling `webp`, not nested in it. */
  lemma PreviewInSiblingDirectory(prefix: string, dir: string, name: string, ext: string)
    requires MatchesPath(prefix + dir + "/" + name + "." + ext, PathParts(prefix, dir, name + "." + ext))
    requires '?' !in prefix + dir + "/" + name + "." + ext && '#' !in prefix + dir + "/" + name + "." + ext
    requires IsPreviewDir(dir) && name != "" && ext != "" && '.' !in ext
    ensures BuildWebpPreviewSrc(prefix + dir + "/" + name + "." + ext) == Some(prefix + "webp/" + name + ".webp")
  {
    assert prefix + dir + "/" + name + "." + ext == prefix + dir + "/" + (name + "." + ext);
    PreviewOfPath(prefix, dir, name + "." + ext);
    DropExtensionOf(name, ext);
  }

  /** "/wall/other/sunset.jpg" has no preview: `other` is not a preview directory. */
  lemma OtherDirectoryHasNoPreview(prefix: string, dir: string, file: string)
    requires MatchesPath(prefix + dir + "/" + file, PathParts(prefix, dir, file))
    requires '?' !in prefix + dir + "/" + file && '#' !in prefix + dir + "/" + file
    requires !IsPreviewDir(dir)
    ensures BuildWebpPreviewSrc(prefix + dir + "/" + file) == None
  {
    PreviewOfPath(prefix, dir, file);
  }

  /** "pcnsw/.jpg" has no preview: removing the extension leaves an empty name. */
  lemma BareExtensionHasNoPreview(prefix: string, dir: string, ext: string)
    requires MatchesPath(prefix + dir + "/." + ext, PathParts(prefix, dir, "." + ext))
    requires '?' !in prefix + dir + "/." + ext && '#' !in prefix + dir + "/." + ext
    requires ext != "" && '.' !in ext
    ensures BuildWebpPreviewSrc(prefix + dir + "/." + ext) == None
  {
    assert prefix + dir + "/." + ext == prefix + dir + "/" + ("." + ext);
    PreviewOfPath(prefix, dir, "." + ext);
    DropExtensionOf("", ext);
    assert "" + "." + ext == "." + ext;
  }

  /** The optional prefix group needs a character before its `/`, so a
      root-relative path with only a directory and a file gets no preview. */
  lemma RootedTwoSegmentsHaveNoPreview(dir: string, file: string)
    requires dir != [] && '/' !in dir && file != [] && '/' !in file
    requires '?' !in dir + file && '#' !in dir + file
    ensures BuildWebpPreviewSrc("/" + dir + "/" + file) == None
  {
    RootedHasNoQuery(dir, file);
    BeforeQueryOfPlain("/" + dir + "/" + file);
    RootedHasNoMatch(dir, file);
  }

  lemma RootedHasNoQuery(dir: string, file: string)
    requires '?' !in dir + file && '#' !in dir + file
    ensures '?' !in "/" + dir + "/" + file && '#' !in "/" + dir + "/" + file
  {
    assert '?' !in dir && '?' !in file && '#' !in dir && '#' !in file by {
      NotInSlice(dir + file, 0, |dir|);
      NotInSlice(dir + file, |dir|, |dir + file|);
      assert (dir + file)[..|dir|] == dir;
      assert (dir + file)[|dir|..] == file;
    }
  }

  lemma RootedHasNoMatch(dir: string, file: string)
    requires dir != [] && '/' !in dir && file != [] && '/' !in file
    ensures forall p :: !MatchesPath("/" + dir + "/" + file, p)
  {
    var s := "/" + dir + "/" + file;
    assert s[1..1 + |dir|] == dir;
    assert s[2 + |dir|..] == file;
    LastAt(s, '/', 1 + |dir|);
    var head := s[..1 + |dir|];
    assert head[1..] == dir;
    LastAt(head, '/', 0);
    forall p | MatchesPath(s, p)
      ensures false
    {
      MatchEndsAtLastSlash(s, p);
      PrefixEndsAtLastSlash(head, p.prefix, p.dir, 0);
    }
  }

  /** What the preview code reads and writes on one `<img>`: its `src` attribute,
      `decoding`, whether `loading` is "lazy", `fetchpriority`, whether
      `data-skip-preview` is present, `data-original-src` and `data-download`
      ("" when absent), and the number of one-shot error listeners it holds. */
  datatype ImgState = ImgState(
    src: string,
    decoding: string,
    lazy: bool,
    fetchPriority: string,
    skipPreview: bool,
    originalSrc: string,
    download: string,
    restoreListeners: nat)

  /** The loading hints every image gets: `decoding` "async" and, for a lazy image,
      `fetchpriority` "low", each only where the attribute is not set. */
  function WithHints(s: ImgState): ImgState {
    s.(decoding := if s.decoding == "" then "async" else s.decoding,
       fetchPriority := if s.lazy && s.fetchPriority == "" then "low" else s.fetchPriority)
  }

  /** The image switched to `preview`, `original` being recorded in the empty ones
      of `data-original-src` and `data-download`, with one more error listener. */
  function ShowingPreview(s: ImgState, preview: string, original: string): ImgState {
    s.(originalSrc := Or(s.originalSrc, original),
       download := Or(s.download, original),
       restoreListeners := s.restoreListeners + 1,
       src := preview)
  }

  /** One pass of `applyWebpPreviews` over one image; `resolve` turns the `src`
      attribute into the absolute URL the `src` property reads. */
  function ApplyPreview(s: ImgState, resolve: string -> string): ImgState {
    if s.skipPreview then WithHints(s)
    else
      match BuildWebpPreviewSrc(s.src)
      case None => WithHints(s)
      case Some(preview) => ShowingPreview(WithHints(s), preview, resolve(s.src))
  }

  /** The image fails to load: every pending one-shot listener runs once and is
      removed, putting back `data-original-src` when it is set. */
  function LoadError(s: ImgState): ImgState {
    if s.restoreListeners == 0 then s
    else s.(restoreListeners := 0, src := if s.originalSrc != "" then s.originalSrc else s.src)
  }

  /** An opted-out image, or one without a derivable preview, keeps its source and
      its data attributes. */
  lemma SkippedKeepsSource(s: ImgState, resolve: string -> string)
    requires s.skipPreview || BuildWebpPreviewSrc(s.src).None?
    ensures var t := ApplyPreview(s, resolve);
      t.src == s.src && t.originalSrc == s.originalSrc && t.download == s.download
      && t.restoreListeners == s.restoreListeners
  {
  }

  /** Otherwise the source becomes the preview and the original URL is recorded in
      `data-original-src` and `data-download` only where these are empty. */
  lemma PreviewRecordsOriginal(s: ImgState, resolve: string -> string)
    requires !s.skipPreview && BuildWebpPreviewSrc(s.src).Some?
    ensures var t := ApplyPreview(s, resolve);
      t.src == BuildWebpPreviewSrc(s.src).value
      && t.originalSrc == (if s.originalSrc != "" then s.originalSrc else resolve(s.src))
      && t.download == (if s.download != "" then s.download else resolve(s.src))
      && t.restoreListeners == s.restoreListeners + 1
  {
  }

  /** Running the pass again changes nothing: the image now shows its preview,
      which has no preview of its own. */
  lemma ApplyPreviewIdempotent(s: ImgState, resolve: string -> string)
    ensures ApplyPreview(ApplyPreview(s, resolve), resolve) == ApplyPreview(s, resolve)
  {
    if !s.skipPreview && BuildWebpPreviewSrc(s.src).Some? {
      NoPreviewOfPreview(s.src);
    }
  }

  /** A failed preview falls back to the recorded original: the one already in
      `data-original-src`, else the source the image had. The listeners are gone,
      so a failing original does not loop. Only when neither is known does the
      preview stay. */
  lemma ErrorRestoresOriginal(s: ImgState, resolve: string -> string)
    requires !s.skipPreview && BuildWebpPreviewSrc(s.src).Some?
    ensures var t := LoadError(ApplyPreview(s, resolve));
      t.src == Or(Or(s.originalSrc, resolve(s.src)), BuildWebpPreviewSrc(s.src).value)
    ensures LoadError(ApplyPreview(s, resolve)).restoreListeners == 0
    ensures LoadError(LoadError(ApplyPreview(s, resolve))) == LoadError(ApplyPreview(s, resolve))
  {
  }

  /** One gallery `<img>`. */
  class PreviewImage {
    var src: string
    var decoding: string
    const lazy: bool
    var fetchPriority: string
    const skipPreview: bool
    var originalSrc: string
    var download: string
    var restoreListeners: nat

    constructor (src: string, decoding: string, lazy: bool, fetchPriority: string,
                 skipPreview: bool, originalSrc: string, download: string)
      ensures State() == ImgState(src, decoding, lazy, fetchPriority, skipPreview, originalSrc, download, 0)
    {
      this.src := src;
      this.decoding := decoding;
      this.lazy := lazy;
      this.fetchPriority := fetchPriority;
      this.skipPreview := skipPreview;
      this.originalSrc := originalSrc;
      this.download := download;
      this.restoreListeners := 0;
    }

    function State(): ImgState
      reads this
    {
      ImgState(src, decoding, lazy, fetchPriority, skipPreview, originalSrc, download, restoreListeners)
    }

    /** The two loading hints at the head of the `forEach` body. */
    method SetLoadingHints()
      modifies this
      ensures State() == WithHints(old(State()))
    {
      if decoding == "" {
        decoding := "async";
      }
      if lazy && fetchPriority == "" {
        fetchPriority := "low";
      }
    }

    /** Recording the original, adding the `{ once: true }` error listener and
        switching to the preview. */
    method ShowPreview(preview: string, original: string)
      modifies this
      ensures State() == ShowingPreview(old(State()), preview, original)
    {
      if originalSrc == "" {
        originalSrc := original;
      }
      if download == "" {
        download := original;
      }
      restoreListeners := restoreListeners + 1;
      src := preview;
    }

    /** The body of the `forEach` in `applyWebpPreviews`. */
    method ApplyWebpPreview(resolve: string -> string)
      modifies this
      ensures State() == ApplyPreview(old(State()), resolve)
    {
      SetLoadingHints();
      if skipPreview {
        return;
      }
      var declaredSrc := src;
      var previewSrc := BuildWebpPreviewSrc(declaredSrc);
      if previewSrc.None? {
        return;
      }
      ShowPreview(previewSrc.value, resolve(declaredSrc));
    }

    /** An `error` event on the image. */
    method FireLoadError()
      modifies this
      ensures State() == LoadError(old(State()))
    {
      if restoreListeners > 0 {
        if originalSrc != "" {
          src := originalSrc;
        }
        restoreListeners := 0;
      }
    }
  }

  /** `applyWebpPreviews(root)` over the images `root.querySelectorAll('img[src]')`
      returns, which are distinct elements. */
  method ApplyWebpPreviews(imgs: seq<PreviewImage>, resolve: string -> string)
    requires forall i, j :: 0 <= i < j < |imgs| ==> imgs[i] != imgs[j]
    modifies set i | 0 <= i < |imgs| :: imgs[i]
    ensures forall i :: 0 <= i < |imgs| ==> imgs[i].State() == ApplyPreview(old(imgs[i].State()), resolve)
  {
    var n := 0;
    while n < |imgs|
      invariant n <= |imgs|
      invariant forall i :: 0 <= i < n ==> imgs[i].State() == ApplyPreview(old(imgs[i].State()), resolve)
      invariant forall i :: n <= i < |imgs| ==> imgs[i].State() == old(imgs[i].State())
    {
      ApplyAt(imgs, n, resolve);
      n := n + 1;
    }
  }

  /** The pass over the image at index `n`, which leaves the others as they are. */
  method ApplyAt(imgs: seq<PreviewImage>, n: nat, resolve: string -> string)
    requires n < |imgs| && forall i :: 0 <= i < |imgs| && i != n ==> imgs[i] != imgs[n]
    modifies imgs[n]
    ensures imgs[n].State() == ApplyPreview(old(imgs[n].State()), resolve)
    ensures forall i :: 0 <= i < |imgs| && i != n ==> imgs[i].State() == old(imgs[i].State())
  {
    imgs[n].ApplyWebpPreview(resolve);
  }
}
