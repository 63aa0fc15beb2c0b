/** The home page's image modal (main.js): clicking a gallery image opens it and
    records a download link and file name; the download button fetches the link
    and saves the body. */
module SimpleModal {
  import opened JsStrings
  import opened Browser

  const FailureToast := "Download failed. Please try again."

  /** The link the download button fetches: `data-download`, else the image's `src`. */
  function DownloadLink(img: ImageAttrs): string {
    Or(img.dataDownload, img.src)
  }

  /** The file name: `data-title`, else the alt text, else "wallpaper", with every
      run of white space replaced by `_`, then ".jpg". */
  function FileName(img: ImageAttrs): string {
    ReplaceWhiteSpaceRuns(Or(Or(img.dataTitle, img.alt), "wallpaper")) + ".jpg"
  }

  /** A name of the form `FileName` produces. */
  predicate IsJpgName(n: string) {
    |n| > 4 && n[|n| - 4..] == ".jpg" && NoWhiteSpace(n)
  }

  lemma FileNameIsJpg(img: ImageAttrs)
    ensures IsJpgName(FileName(img))
    ensures NoWhiteSpace(img.dataTitle) && img.dataTitle != "" ==> FileName(img) == img.dataTitle + ".jpg"
  {
    JpgOfName(ReplaceWhiteSpaceRuns(Or(Or(img.dataTitle, img.alt), "wallpaper")));
  }

  lemma JpgOfName(t: string)
    requires NoWhiteSpace(t) && t != ""
    ensures IsJpgName(t + ".jpg")
  {
    var e := ".jpg";
    assert NoWhiteSpace(e) by {
      assert e[0] == '.' && e[1] == 'j' && e[2] == 'p' && e[3] == 'g';
    }
    NoWhiteSpaceJoin(t, e);
    assert (t + e)[|t|..] == e;
  }

  /** What the modal shows and the two variables the click handler sets. `display`
      is the modal's `style.display`: "" before any handler ran, then "flex" or "none". */
  datatype ModalState = ModalState(
    display: string,
    bodyModalOpen: bool,
    shownSrc: string,
    shownTitle: string,
    shownDesc: string,
    downloadLink: string,
    fileName: string)

  const Initial := ModalState("", false, "", "", "", "", "")

  /** The state after clicking `img`. */
  function Clicked(s: ModalState, img: ImageAttrs): ModalState {
    ModalState("flex", true, Or(img.dataPreview, img.src), Or(Or(img.dataTitle, img.alt), "Wallpaper"),
               img.dataDesc, DownloadLink(img), FileName(img))
  }

  /** The close button, or a click whose target is the modal backdrop. */
  function Closed(s: ModalState): ModalState {
    s.(display := "none", bodyModalOpen := false)
  }

  /** A `keydown`: Escape closes a modal that is shown. */
  function KeyDown(s: ModalState, key: string): ModalState {
    if key == "Escape" && s.display == "flex" then Closed(s) else s
  }

  /** A `click` anywhere in the window; only one on the backdrop closes. */
  function WindowClick(s: ModalState, onBackdrop: bool): ModalState {
    if onBackdrop then Closed(s) else s
  }

  /** Whenever there is a link, there is a ".jpg" file name for it. */
  predicate Consistent(s: ModalState) {
    (s.downloadLink != "" ==> IsJpgName(s.fileName)) && (s.fileName == "" || IsJpgName(s.fileName))
  }

  /** Every handler keeps `Consistent`; the page starts consistent. */
  lemma HandlersKeepConsistent(s: ModalState, img: ImageAttrs, key: string, onBackdrop: bool)
    requires Consistent(s)
    ensures Consistent(Initial)
    ensures Consistent(Clicked(s, img))
    ensures Consistent(Closed(s)) && Consistent(KeyDown(s, key)) && Consistent(WindowClick(s, onBackdrop))
  {
    FileNameIsJpg(img);
  }

  /** Closing hides the modal and keeps the selection, which a later download uses. */
  lemma CloseKeepsSelection(s: ModalState, img: ImageAttrs)
    ensures var c := Closed(Clicked(s, img));
      c.display == "none" && !c.bodyModalOpen
      && c.downloadLink == DownloadLink(img) && c.fileName == FileName(img)
    ensures Closed(Closed(s)) == Closed(s)
  {
  }

  /** Escape closes exactly a shown modal. */
  lemma EscapeClosesShown(s: ModalState, key: string)
    ensures s.display == "flex" ==> KeyDown(s, "Escape") == Closed(s)
    ensures key != "Escape" || s.display != "flex" ==> KeyDown(s, key) == s
  {
  }

  /** The effects of the download button with link `link` and name `fileName`, when
      fetching the link answers `r`. The status of the response is not looked at: a
      body that can be read is saved. */
  function DownloadTrace(link: string, fileName: string, r: FetchResult): seq<Effect> {
    if link == "" then []
    else
      [Toast("Downloading..."), Fetch(link)] + AfterFetch(link, fileName, r)
  }

  /** What follows the fetch of the link. */
  function AfterFetch(link: string, fileName: string, r: FetchResult): seq<Effect> {
    if r.Rejected? || !r.bodyRead then [Toast(FailureToast)]
    else [Save(link, Or(fileName, "download.jpg")), Toast("Download complete!")]
  }

  /** One fetch of the link when there is one; a save exactly when the body is read,
      whatever `ok` says, under the recorded name, which in a consistent state is
      never the "download.jpg" default. */
  lemma DownloadOutcome(s: ModalState, r: FetchResult)
    requires Consistent(s)
    ensures var t := DownloadTrace(s.downloadLink, s.fileName, r);
      Fetches(t) == (if s.downloadLink == "" then [] else [s.downloadLink])
      && Saves(t) == (if s.downloadLink != "" && r.Response? && r.bodyRead
                      then [Save(s.downloadLink, s.fileName)] else [])
      && Toasts(t) == (if s.downloadLink == "" then []
                       else ["Downloading...", if r.Response? && r.bodyRead then "Download complete!" else FailureToast])
  {
    if s.downloadLink != "" {
      StartProjections("Downloading...", s.downloadLink, AfterFetch(s.downloadLink, s.fileName, r));
      ProjectionsAfterFetch(s.downloadLink, s.fileName, r);
    }
  }

  lemma ProjectionsAfterFetch(link: string, fileName: string, r: FetchResult)
    requires fileName != ""
    ensures var t := AfterFetch(link, fileName, r);
      var ok := r.Response? && r.bodyRead;
      Fetches(t) == [] && Saves(t) == (if ok then [Save(link, fileName)] else [])
      && Toasts(t) == [if ok then "Download complete!" else FailureToast]
  {
    if r.Rejected? || !r.bodyRead {
      ProjectOne(Toast(FailureToast));
    } else {
      PairProjections(Save(link, fileName), Toast("Download complete!"));
    }
  }

  /** Before any image was clicked the button does nothing. */
  lemma NothingBeforeClick(r: FetchResult)
    ensures DownloadTrace(Initial.downloadLink, Initial.fileName, r) == []
  {
  }

  /** The modal and the handlers registered on the page. */
  class Modal {
    var display: string
    var bodyModalOpen: bool
    var shownSrc: string
    var shownTitle: string
    var shownDesc: string
    var currentDownloadLink: string
    var currentFileName: string

    constructor ()
      ensures State() == Initial
    {
      display, bodyModalOpen := "", false;
      shownSrc, shownTitle, shownDesc := "", "", "";
      currentDownloadLink, currentFileName := "", "";
    }

    function State(): ModalState
      reads this
    {
      ModalState(display, bodyModalOpen, shownSrc, shownTitle, shownDesc, currentDownloadLink, currentFileName)
    }

    /** The `click` listener on a gallery image. */
    method OnImageClick(img: ImageAttrs)
      modifies this
      ensures State() == Clicked(old(State()), img)
    {
      display := "flex";
      bodyModalOpen := true;
      shownSrc := Or(img.dataPreview, img.src);
      shownTitle := Or(Or(img.dataTitle, img.alt), "Wallpaper");
      shownDesc := Or(img.dataDesc, "");
      currentDownloadLink := Or(img.dataDownload, img.src);
      currentFileName := ReplaceWhiteSpaceRuns(Or(Or(img.dataTitle, img.alt), "wallpaper")) + ".jpg";
    }

    /** The close button's `click` listener. */
    method Close()
      modifies this
      ensures State() == Closed(old(State()))
    {
      display := "none";
      bodyModalOpen := false;
    }

    /** The window's `click` listener; `onBackdrop` says whether the target is the modal. */
    method OnWindowClick(onBackdrop: bool)
      modifies this
      ensures State() == WindowClick(old(State()), onBackdrop)
    {
      if onBackdrop {
        Close();
      }
    }

    /** The document's `keydown` listener. */
    method OnKeyDown(key: string)
      modifies this
      ensures State() == KeyDown(old(State()), key)
    {
      if key == "Escape" && display == "flex" {
        Close();
      }
    }

    /** The download button's `click` listener: the effects it causes, in order. */
    method OnDownloadClick(net: string -> FetchResult) returns (effects: seq<Effect>)
      ensures effects == DownloadTrace(currentDownloadLink, currentFileName, net(currentDownloadLink))
    {
      effects := [];
      if currentDownloadLink != "" {
        effects := [Toast("Downloading..."), Fetch(currentDownloadLink)];
        var response := net(currentDownloadLink);
        if response.Rejected? || !response.bodyRead {
          effects := effects + [Toast(FailureToast)];
        } else {
          var name := Or(currentFileName, "download.jpg");
          effects := effects + [Save(currentDownloadLink, name), Toast("Download complete!")];
        }
      }
    }
  }
}
