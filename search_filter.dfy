/** The search box and category select of the home page (main.js): an image is
    shown when it is in the selected category and its title, description or alt
    text contains the search text; a section header is shown when an image of its
    section is; a "no results" message when none is. */
module SearchFilter {
  import opened JsStrings

  /** The attributes of an `img[data-category]` the filter reads (missing ones read
      as ""). */
  datatype Entry = Entry(category: string, title: string, desc: string, alt: string)

  /** The category match, with `category` already lower-cased. */
  predicate CategoryMatch(e: Entry, category: string) {
    category == "all" || ToLowerCase(e.category) == category
  }

  /** The search match, with `searchText` already lower-cased and trimmed. */
  predicate SearchMatch(e: Entry, searchText: string) {
    searchText == "" || Includes(ToLowerCase(e.title), searchText)
    || Includes(ToLowerCase(e.desc), searchText) || Includes(ToLowerCase(e.alt), searchText)
  }

  predicate Visible(e: Entry, category: string, searchText: string) {
    CategoryMatch(e, category) && SearchMatch(e, searchText)
  }

  /** `visibleCount` after the images `es`. */
  function VisibleCount(es: seq<Entry>, category: string, searchText: string): (r: nat)
    ensures r <= |es|
  {
    if es == [] then 0
    else VisibleCount(es[..|es| - 1], category, searchText) + if Visible(es[|es| - 1], category, searchText) then 1 else 0
  }

  /** The count is zero exactly when no image is shown. */
  lemma {:induction false} CountZeroIffNoneVisible(es: seq<Entry>, category: string, searchText: string)
    ensures VisibleCount(es, category, searchText) == 0
      <==> forall i :: 0 <= i < |es| ==> !Visible(es[i], category, searchText)
  {
    if es != [] {
      var init := es[..|es| - 1];
      CountZeroIffNoneVisible(init, category, searchText);
      assert forall i :: 0 <= i < |init| ==> init[i] == es[i];
    }
  }

  /** `visibleSections` after the images `es`: the lower-cased categories of the
      images shown. */
  function VisibleSections(es: seq<Entry>, category: string, searchText: string): set<string> {
    if es == [] then {}
    else
      var e := es[|es| - 1];
      var r := VisibleSections(es[..|es| - 1], category, searchText);
      if Visible(e, category, searchText) then r + {ToLowerCase(e.category)} else r
  }

  /** A section is collected exactly when an image of it is shown. */
  lemma {:induction false} SectionsOfVisible(es: seq<Entry>, category: string, searchText: string, s: string)
    ensures s in VisibleSections(es, category, searchText)
      <==> exists i :: 0 <= i < |es| && Visible(es[i], category, searchText) && ToLowerCase(es[i].category) == s
  {
    if es != [] {
      var init := es[..|es| - 1];
      SectionsOfVisible(init, category, searchText, s);
      assert forall i :: 0 <= i < |init| ==> init[i] == es[i];
      var last := |es| - 1;
      if Visible(es[last], category, searchText) && ToLowerCase(es[last].category) == s {
        assert s in VisibleSections(es, category, searchText);
      }
    }
  }

  /** One more image: the count and the sections of a prefix one longer. */
  lemma PrefixStep(es: seq<Entry>, i: nat, category: string, searchText: string)
    requires i < |es|
    ensures VisibleCount(es[..i + 1], category, searchText)
      == VisibleCount(es[..i], category, searchText) + if Visible(es[i], category, searchText) then 1 else 0
    ensures VisibleSections(es[..i + 1], category, searchText)
      == VisibleSections(es[..i], category, searchText)
         + if Visible(es[i], category, searchText) then {ToLowerCase(es[i].category)} else {}
  {
    assert es[..i + 1][..i] == es[..i];
  }

  /** Whether the header of `section` is shown, given the shown categories. */
  predicate HeaderShown(section: string, category: string, visible: set<string>) {
    var s := ToLowerCase(section);
    if category == "all" then s in visible else s == category && s in visible
  }

  /** In either mode a header is shown exactly when an image of its section is. */
  lemma HeaderIffImageOfSection(es: seq<Entry>, section: string, category: string, searchText: string)
    ensures HeaderShown(section, category, VisibleSections(es, category, searchText))
      <==> exists i :: 0 <= i < |es| && Visible(es[i], category, searchText)
                       && ToLowerCase(es[i].category) == ToLowerCase(section)
  {
    SectionsOfVisible(es, category, searchText, ToLowerCase(section));
  }

  /** With a category chosen, only images of that category are shown. */
  lemma ChosenCategoryOnly(es: seq<Entry>, category: string, searchText: string)
    requires category != "all"
    ensures VisibleSections(es, category, searchText) <= {category}
  {
    forall s | s in VisibleSections(es, category, searchText)
      ensures s == category
    {
      SectionsOfVisible(es, category, searchText, s);
    }
  }

  /** "all" with an empty search shows every image. */
  lemma EverythingShown(es: seq<Entry>)
    ensures VisibleCount(es, "all", "") == |es|
  {
    if es != [] {
      EverythingShown(es[..|es| - 1]);
    }
  }

  /** The search value as the filter uses it. */
  function SearchText(value: string): string {
    Trim(ToLowerCase(value))
  }

  /** A search box holding only white space filters nothing. */
  lemma BlankSearchMatchesAll(value: string, e: Entry)
    requires AllWhiteSpace(value)
    ensures SearchText(value) == ""
    ensures SearchMatch(e, SearchText(value))
  {
    var l := ToLowerCase(value);
    assert AllWhiteSpace(l) by {
      forall i | 0 <= i < |l|
        ensures IsWhiteSpace(l[i])
      {
        assert IsWhiteSpace(value[i]);
        assert l[i] == LowerChar(value[i]);
      }
    }
  }

  /** The gallery: the images and headers it holds, and what is shown. An image or
      header is shown when its `style.display` is "" rather than "none". */
  class FilterPage {
    const entries: seq<Entry>
    const sections: seq<string>
    const imageShown: array<bool>
    const headerShown: array<bool>
    const hasNoResults: bool
    var noResultsShown: bool

    predicate Valid()
      reads this
    {
      imageShown.Length == |entries| && headerShown.Length == |sections| && imageShown != headerShown
    }

    constructor (entries: seq<Entry>, sections: seq<string>, hasNoResults: bool)
      ensures Valid() && fresh(imageShown) && fresh(headerShown)
      ensures this.entries == entries && this.sections == sections && this.hasNoResults == hasNoResults
      ensures !noResultsShown
    {
      this.entries := entries;
      this.sections := sections;
      this.hasNoResults := hasNoResults;
      imageShown := new bool[|entries|](_ => true);
      headerShown := new bool[|sections|](_ => true);
      noResultsShown := false;
    }

    /** `filterImages()` with the select holding `categoryValue` and the search box
        `searchValue`. */
    method FilterImages(categoryValue: string, searchValue: string)
      requires Valid()
      modifies imageShown, headerShown, this
      ensures Valid()
      ensures var c, q := ToLowerCase(categoryValue), SearchText(searchValue);
        (forall i :: 0 <= i < |entries| ==> imageShown[i] == Visible(entries[i], c, q))
        && (forall j :: 0 <= j < |sections| ==>
              headerShown[j] == HeaderShown(sections[j], c, VisibleSections(entries, c, q)))
        && noResultsShown == (if hasNoResults then VisibleCount(entries, c, q) == 0 else old(noResultsShown))
    {
      var category := ToLowerCase(categoryValue);
      var searchText := Trim(ToLowerCase(searchValue));
      var visibleCount, visibleSections := ShowImages(category, searchText);
      ShowHeaders(category, visibleSections);
      if hasNoResults {
        noResultsShown := visibleCount == 0;
      }
    }

    /** The `images.forEach` pass: shows or hides each image, counting the shown ones
        and collecting their sections. */
    method ShowImages(category: string, searchText: string) returns (visibleCount: nat, visibleSections: set<string>)
      requires Valid()
      modifies imageShown
      ensures forall i :: 0 <= i < |entries| ==> imageShown[i] == Visible(entries[i], category, searchText)
      ensures visibleCount == VisibleCount(entries, category, searchText)
      ensures visibleSections == VisibleSections(entries, category, searchText)
    {
      visibleCount := 0;
      visibleSections := {};
      for i := 0 to |entries|
        invariant forall k :: 0 <= k < i ==> imageShown[k] == Visible(entries[k], category, searchText)
        invariant visibleCount == VisibleCount(entries[..i], category, searchText)
        invariant visibleSections == VisibleSections(entries[..i], category, searchText)
      {
        var e := entries[i];
        var categoryMatch := CategoryMatch(e, category);
        var searchMatch := SearchMatch(e, searchText);
        PrefixStep(entries, i, category, searchText);
        if categoryMatch && searchMatch {
          imageShown[i] := true;
          visibleCount := visibleCount + 1;
          visibleSections := visibleSections + {ToLowerCase(e.category)};
        } else {
          imageShown[i] := false;
        }
      }
      assert entries[..|entries|] == entries;
    }

    /** The `sectionHeaders.forEach` pass. */
    method ShowHeaders(category: string, visibleSections: set<string>)
      requires Valid()
      modifies headerShown
      ensures forall j :: 0 <= j < |sections| ==> headerShown[j] == HeaderShown(sections[j], category, visibleSections)
    {
      for j := 0 to |sections|
        invariant forall k :: 0 <= k < j ==> headerShown[k] == HeaderShown(sections[k], category, visibleSections)
      {
        var section := ToLowerCase(sections[j]);
        if category == "all" {
          headerShown[j] := section in visibleSections;
        } else {
          headerShown[j] := section == category && section in visibleSections;
        }
      }
    }
  }
}
