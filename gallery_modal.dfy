/** The gallery page's modal: the selection `openModal` records and the
    quality-aware download `downloadImage(quality)` (gallery-common.js). */
module GalleryModal {
  import opened JsStrings
  import opened Browser
  import QualityPaths

  const FailureToast := "Download failed. Try right-click > Save image."
  const FallbackToast := "Selected quality not found. Downloading original."

  /** The URL the selection downloads: `data-original-src`, else `data-download`,
      else the image's `src`. */
  function SelectionSource(img: ImageAttrs): string {
    Or(Or(img.dataOriginalSrc, img.dataDownload), img.src)
  }

  /** The title of the selection: `data-title`, else the alt text, else "Wallpaper". */
  function SelectionTitle(img: ImageAttrs): (r: string)
    ensures r != ""
  {
    Or(Or(img.dataTitle, img.alt), "Wallpaper")
  }

  /** The precedence of the attributes, spelled out. */
  lemma SelectionPrecedence(img: ImageAttrs)
    ensures img.dataOriginalSrc != "" ==> SelectionSource(img) == img.dataOriginalSrc
    ensures img.dataOriginalSrc == "" && img.dataDownload != "" ==> SelectionSource(img) == img.dataDownload
    ensures img.dataOriginalSrc == "" && img.dataDownload == "" ==> SelectionSource(img) == img.src
    ensures img.dataTitle != "" ==> SelectionTitle(img) == img.dataTitle
    ensures img.dataTitle == "" && img.alt != "" ==> SelectionTitle(img) == img.alt
    ensures img.dataTitle == "" && img.alt == "" ==> SelectionTitle(img) == "Wallpaper"
  {
  }

  /** The tier asked for: "medium" for "medium", "high" for anything else. */
  function Tier(quality: string): (r: string)
    ensures r == "medium" <==> quality == "medium"
    ensures r == "medium" || r == "high"
  {
    if quality == "medium" then "medium" else "high"
  }

  /** The name the file is saved under: the title with every run of white space
      replaced by `_`, then `_<tier>.jpg`. */
  function SavedName(title: string, wanted: string): string {
    ReplaceWhiteSpaceRuns(title) + TierSuffix(wanted)
  }

  function TierSuffix(wanted: string): string {
    "_" + wanted + ".jpg"
  }

  lemma SavedNameShape(title: string, wanted: string)
    requires NoWhiteSpace(wanted)
    ensures var r := SavedName(title, wanted);
      NoWhiteSpace(r) && |r| >= |wanted| + 5 && r[|r| - |wanted| - 5..] == TierSuffix(wanted)
      && (NoWhiteSpace(title) ==> r == title + TierSuffix(wanted))
  {
    SuffixHasNoWhiteSpace(wanted);
    JoinKeepsSuffix(ReplaceWhiteSpaceRuns(title), TierSuffix(wanted));
  }

  lemma SuffixHasNoWhiteSpace(wanted: string)
    requires NoWhiteSpace(wanted)
    ensures NoWhiteSpace(TierSuffix(wanted)) && |TierSuffix(wanted)| == |wanted| + 5
  {
    var u, e := "_", ".jpg";
    assert NoWhiteSpace(u) by { assert u[0] == '_'; }
    assert NoWhiteSpace(e) by { assert e[0] == '.' && e[1] == 'j' && e[2] == 'p' && e[3] == 'g'; }
    NoWhiteSpaceJoin(u, wanted);
    NoWhiteSpaceJoin(u + wanted, e);
  }

  lemma JoinKeepsSuffix(t: string, suffix: string)
    requires NoWhiteSpace(t) && NoWhiteSpace(suffix)
    ensures NoWhiteSpace(t + suffix) && (t + suffix)[|t + suffix| - |suffix|..] == suffix
  {
    NoWhiteSpaceJoin(t, suffix);
    assert (t + suffix)[|t|..] == suffix;
  }

  /** The URL fetched first: the source mapped to the tier. */
  function Mapped(src: string, quality: string): string {
    QualityPaths.MapPairs(QualityPaths.Pairs, Tier(quality), src)
  }

  /** The original is fetched a second time when the first answer is a response that
      is not OK and the mapped URL is not the original. */
  predicate NeedsFallback(first: FetchResult, mapped: string, src: string) {
    first.Response? && !first.ok && mapped != src
  }

  /** The end of a download whose last fetch answered `r` for `source`. */
  function Finish(r: FetchResult, source: string, title: string, wanted: string): seq<Effect> {
    if r.Response? && r.ok && r.bodyRead then
      [Save(source, SavedName(title, wanted)), Toast("Download complete (" + wanted + ").")]
    else [Toast(FailureToast)]
  }

  /** What follows the second fetch, which answered `second`. */
  function AfterFallback(src: string, title: string, wanted: string, second: FetchResult): seq<Effect> {
    if second.Rejected? then [Toast(FailureToast)]
    else [Toast(FallbackToast)] + Finish(second, src, title, wanted)
  }

  /** What follows the first fetch of `mapped`, which answered `first`; `second` is
      what fetching the original `src` would answer. */
  function AfterFirst(src: string, title: string, wanted: string, mapped: string,
                      first: FetchResult, second: FetchResult): seq<Effect> {
    if first.Rejected? then [Toast(FailureToast)]
    else if NeedsFallback(first, mapped, src) then [Fetch(src)] + AfterFallback(src, title, wanted, second)
    else Finish(first, mapped, title, wanted)
  }

  /** The effects of `downloadImage(quality)` with selection `src` and title `title`,
      when fetching a URL `u` answers `net(u)`. A rejected fetch, a response that is
      still not OK, and a body that cannot be read all end in the failure toast. */
  function DownloadTrace(src: string, title: string, quality: string, net: string -> FetchResult): (r: seq<Effect>)
    ensures r == [] <==> src == ""
  {
    if src == "" then []
    else
      var wanted, mapped := Tier(quality), Mapped(src, quality);
      [Toast("Starting " + wanted + " quality download..."), Fetch(mapped)]
      + AfterFirst(src, title, wanted, mapped, net(mapped), net(src))
  }

  /** The URL whose answer decides the outcome, and whether the download succeeds. */
  function FinalSource(src: string, quality: string, net: string -> FetchResult): string {
    if NeedsFallback(net(Mapped(src, quality)), Mapped(src, quality), src) then src else Mapped(src, quality)
  }

  predicate Succeeds(src: string, quality: string, net: string -> FetchResult) {
    src != "" && net(FinalSource(src, quality, net)) == Response(true, true)
  }

  /** At most two fetches: the mapped URL, then the original only after a response
      that is not OK for a mapped URL that differs from it. */
  lemma FetchPlan(src: string, title: string, quality: string, net: string -> FetchResult)
    requires src != ""
    ensures Fetches(DownloadTrace(src, title, quality, net))
      == [Mapped(src, quality)] + (if NeedsFallback(net(Mapped(src, quality)), Mapped(src, quality), src) then [src] else [])
  {
    var wanted, mapped := Tier(quality), Mapped(src, quality);
    StartProjections("Starting " + wanted + " quality download...", mapped,
      AfterFirst(src, title, wanted, mapped, net(mapped), net(src)));
    ProjectionsAfterFirst(src, title, wanted, mapped, net(mapped), net(src));
  }

  /** A download saves exactly when it succeeds, and then saves the answer for the
      URL that decided it, under the title-derived name. */
  lemma SaveIffSuccess(src: string, title: string, quality: string, net: string -> FetchResult)
    ensures Saves(DownloadTrace(src, title, quality, net))
      == if Succeeds(src, quality, net)
         then [Save(FinalSource(src, quality, net), SavedName(title, Tier(quality)))] else []
  {
    if src != "" {
      var wanted, mapped := Tier(quality), Mapped(src, quality);
      StartProjections("Starting " + wanted + " quality download...", mapped,
        AfterFirst(src, title, wanted, mapped, net(mapped), net(src)));
      ProjectionsAfterFirst(src, title, wanted, mapped, net(mapped), net(src));
    }
  }

  /** The last toast of a download: the tier on success, the failure toast otherwise. */
  function DoneToast(ok: bool, wanted: string): string {
    if ok then "Download complete (" + wanted + ")." else FailureToast
  }

  /** The toasts: "Starting ...", then "Selected quality not found ..." when the
      second fetch gave a response, then "Download complete (<tier>)." on success and
      the failure toast otherwise. */
  lemma ToastOrder(src: string, title: string, quality: string, net: string -> FetchResult)
    requires src != ""
    ensures Toasts(DownloadTrace(src, title, quality, net))
      == ["Starting " + Tier(quality) + " quality download..."]
         + (if NeedsFallback(net(Mapped(src, quality)), Mapped(src, quality), src) && net(src).Response?
            then [FallbackToast] else [])
         + [DoneToast(Succeeds(src, quality, net), Tier(quality))]
  {
    var wanted, mapped := Tier(quality), Mapped(src, quality);
    var first, second := net(mapped), net(src);
    var fallback := NeedsFallback(first, mapped, src);
    ProjectionsAfterFirst(src, title, wanted, mapped, first, second);
    assert Succeeds(src, quality, net) == (!first.Rejected? && (if fallback then second else first) == Response(true, true));
    ToastsAfterStart("Starting " + wanted + " quality download...", mapped,
      AfterFirst(src, title, wanted, mapped, first, second),
      if fallback && second.Response? then [FallbackToast] else [],
      DoneToast(Succeeds(src, quality, net), wanted));
  }

  lemma ToastsAfterStart(m: string, u: string, rest: seq<Effect>, middle: seq<string>, last: string)
    requires Toasts(rest) == middle + [last]
    ensures Toasts([Toast(m), Fetch(u)] + rest) == [m] + middle + [last]
  {
    StartProjections(m, u, rest);
    assert [m] + (middle + [last]) == [m] + middle + [last];
  }

  /** The whole trace when the mapped file is missing and the original downloads. */
  lemma FallbackTrace(src: string, title: string, quality: string, net: string -> FetchResult)
    requires src != "" && Mapped(src, quality) != src
    requires net(Mapped(src, quality)).Response? && !net(Mapped(src, quality)).ok
    requires net(src) == Response(true, true)
    ensures DownloadTrace(src, title, quality, net)
      == [Toast("Starting " + Tier(quality) + " quality download..."), Fetch(Mapped(src, quality))]
         + [Fetch(src), Toast(FallbackToast), Save(src, SavedName(title, Tier(quality))),
            Toast("Download complete (" + Tier(quality) + ").")]
  {
    FallbackAfterFirst(src, title, Tier(quality), Mapped(src, quality), net(Mapped(src, quality)), net(src));
  }

  lemma FallbackAfterFirst(src: string, title: string, wanted: string, mapped: string,
                           first: FetchResult, second: FetchResult)
    requires mapped != src && first.Response? && !first.ok && second == Response(true, true)
    ensures AfterFirst(src, title, wanted, mapped, first, second)
      == [Fetch(src), Toast(FallbackToast), Save(src, SavedName(title, wanted)),
          Toast("Download complete (" + wanted + ").")]
  {
    var done := [Save(src, SavedName(title, wanted)), Toast("Download complete (" + wanted + ").")];
    assert AfterFirst(src, title, wanted, mapped, first, second)
      == [Fetch(src)] + ([Toast(FallbackToast)] + done);
  }

  /** The projections of what follows the first fetch. */
  lemma ProjectionsAfterFirst(src: string, title: string, wanted: string, mapped: string,
                              first: FetchResult, second: FetchResult)
    ensures var t := AfterFirst(src, title, wanted, mapped, first, second);
      var fallback := NeedsFallback(first, mapped, src);
      var last := if fallback then second else first;
      var ok := !first.Rejected? && last == Response(true, true);
      Fetches(t) == (if fallback then [src] else [])
      && Saves(t) == (if ok then [Save(if fallback then src else mapped, SavedName(title, wanted))] else [])
      && Toasts(t) == (if fallback && second.Response? then [FallbackToast] else []) + [DoneToast(ok, wanted)]
  {
    ProjectOne(Toast(FailureToast));
    if !first.Rejected? {
      if NeedsFallback(first, mapped, src) {
        var tail := AfterFallback(src, title, wanted, second);
        FetchesConcat([Fetch(src)], tail);
        ToastsConcat([Fetch(src)], tail);
        SavesConcat([Fetch(src)], tail);
        ProjectOne(Fetch(src));
        ProjectionsAfterFallback(src, title, wanted, second);
      } else {
        ProjectionsOfFinish(first, mapped, title, wanted);
      }
    }
  }

  lemma ProjectionsAfterFallback(src: string, title: string, wanted: string, second: FetchResult)
    ensures var t := AfterFallback(src, title, wanted, second);
      var ok := second == Response(true, true);
      Fetches(t) == []
      && Saves(t) == (if ok then [Save(src, SavedName(title, wanted))] else [])
      && Toasts(t) == (if second.Response? then [FallbackToast] else []) + [DoneToast(ok, wanted)]
  {
    ProjectOne(Toast(FailureToast));
    if !second.Rejected? {
      var f := Finish(second, src, title, wanted);
      FetchesConcat([Toast(FallbackToast)], f);
      ToastsConcat([Toast(FallbackToast)], f);
      SavesConcat([Toast(FallbackToast)], f);
      ProjectOne(Toast(FallbackToast));
      ProjectionsOfFinish(second, src, title, wanted);
    }
  }

  lemma ProjectionsOfFinish(r: FetchResult, source: string, title: string, wanted: string)
    ensures var t := Finish(r, source, title, wanted);
      var ok := r == Response(true, true);
      Fetches(t) == []
      && Saves(t) == (if ok then [Save(source, SavedName(title, wanted))] else [])
      && Toasts(t) == [DoneToast(ok, wanted)]
  {
    if r == Response(true, true) {
      PairProjections(Save(source, SavedName(title, wanted)), Toast("Download complete (" + wanted + ")."));
    } else {
      ProjectOne(Toast(FailureToast));
    }
  }

  /** The page state `openModal` writes and `downloadImage` reads. */
  class GalleryState {
    var currentImageSrc: string
    var currentImageTitle: string

    constructor ()
      ensures currentImageSrc == "" && currentImageTitle == "Wallpaper"
    {
      currentImageSrc := "";
      currentImageTitle := "Wallpaper";
    }

    /** `openModal(img)`; `modalPresent` says whether the modal and its image, title
        and description elements exist, without which nothing happens. */
    method OpenModal(img: ImageAttrs, modalPresent: bool)
      modifies this
      ensures modalPresent ==> currentImageSrc == SelectionSource(img) && currentImageTitle == SelectionTitle(img)
      ensures !modalPresent ==> currentImageSrc == old(currentImageSrc) && currentImageTitle == old(currentImageTitle)
    {
      if !modalPresent {
        return;
      }
      var originalSrc := Or(Or(img.dataOriginalSrc, img.dataDownload), img.src);
      currentImageSrc := originalSrc;
      currentImageTitle := Or(Or(img.dataTitle, img.alt), "Wallpaper");
    }

    /** `downloadImage(quality)`: the effects it causes, in order. */
    method DownloadImage(quality: string, net: string -> FetchResult) returns (effects: seq<Effect>)
      ensures effects == DownloadTrace(currentImageSrc, currentImageTitle, quality, net)
    {
      if currentImageSrc == "" {
        return [];
      }
      var wanted := if quality == "medium" then "medium" else "high";
      var sourceToDownload := QualityPaths.MapQualitySource(currentImageSrc, wanted);
      var rest := AwaitFirst(currentImageSrc, currentImageTitle, wanted, sourceToDownload, net);
      effects := [Toast("Starting " + wanted + " quality download..."), Fetch(sourceToDownload)] + rest;
    }
  }

  /** The `try` block of `downloadImage` from the first `await fetch` on. */
  method AwaitFirst(src: string, title: string, wanted: string, mapped: string, net: string -> FetchResult)
    returns (effects: seq<Effect>)
    ensures effects == AfterFirst(src, title, wanted, mapped, net(mapped), net(src))
  {
    var sourceToDownload := mapped;
    var response := net(sourceToDownload);
    if response.Rejected? {
      return [Toast(FailureToast)];
    }
    effects := [];
    if !response.ok && sourceToDownload != src {
      sourceToDownload := src;
      effects := effects + [Fetch(sourceToDownload)];
      response := net(sourceToDownload);
      if response.Rejected? {
        return effects + [Toast(FailureToast)];
      }
      effects := effects + [Toast(FallbackToast)];
    }
    var tail := AwaitBody(response, sourceToDownload, title, wanted);
    effects := effects + tail;
  }

  /** The end of the `try` block: a response that is not OK throws; otherwise the body
      is read and saved. */
  method AwaitBody(response: FetchResult, source: string, title: string, wanted: string)
    returns (effects: seq<Effect>)
    requires response.Response?
    ensures effects == Finish(response, source, title, wanted)
  {
    if !response.ok || !response.bodyRead {
      return [Toast(FailureToast)];
    }
    var fileName := ReplaceWhiteSpaceRuns(title) + "_" + wanted + ".jpg";
    assert fileName == SavedName(title, wanted);
    effects := [Save(source, fileName), Toast("Download complete (" + wanted + ").")];
  }
}
