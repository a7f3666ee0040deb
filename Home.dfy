/**
 * The catalogue home page: the language choices offered in the drop-down, taken from
 * the records, and the two change handlers that lower-case the chosen option before it
 * reaches the listing.
 */
module Home {
  import opened JsStrings
  import opened Sequences
  import opened Books
  import opened BookCards

  /**
   * The languages offered: `[...new Set(apiData.map(el => el.Language))]`, then a loop
   * that keeps every value except `null`. A record without a language contributes
   * `undefined`, which stays, as does an empty string.
   */
  method DistinctLanguages(apiData: seq<Book>) returns (languages: seq<JsStr>)
    ensures Null !in languages
    ensures Distinct(languages)
    ensures forall v :: v in languages <==> v != Null && v in Languages(apiData)
    ensures forall i, j :: 0 <= i < j < |languages| ==>
      IndexOf(Languages(apiData), languages[i]) < IndexOf(Languages(apiData), languages[j])
  {
    var langData := Dedup(Languages(apiData));
    languages := [];
    ghost var pos: seq<nat> := [];
    for i := 0 to |langData|
      invariant |pos| == |languages|
      invariant forall k :: 0 <= k < |pos| ==> pos[k] < i && languages[k] == langData[pos[k]]
      invariant forall a, b :: 0 <= a < b < |pos| ==> pos[a] < pos[b]
      invariant forall k :: 0 <= k < |languages| ==> languages[k] != Null
      invariant forall k :: 0 <= k < i && langData[k] != Null ==> langData[k] in languages
    {
      if langData[i] != Null {
        languages := languages + [langData[i]];
        pos := pos + [i];
      }
    }
    forall a, b | 0 <= a < b < |languages|
      ensures IndexOf(Languages(apiData), languages[a]) < IndexOf(Languages(apiData), languages[b])
    {
      DedupKeepsFirstOccurrenceOrder(Languages(apiData), pos[a], pos[b]);
    }
  }

  /**
   * `handleSelected`: the chosen language, lower-cased character by character, so that
   * it carries no capital letter and lower-casing it again changes nothing.
   */
  function HandleSelected(value: string): (selected: string)
    ensures |selected| == |value|
    ensures forall i :: 0 <= i < |value| ==> selected[i] == LowerChar(value[i])
    ensures Lower(selected) == selected
  {
    LowerIdempotent(value);
    Lower(value)
  }

  /**
   * `handleSortBy`: the chosen sort option, lower-cased; an option sorts ascending or
   * descending exactly when it spells 'title(a-z)' or 'title(z-a)' in any case.
   */
  function HandleSortBy(value: string): (sortBy: string)
    ensures SortOrderOf(sortBy) == TitleAscending <==> Lower(value) == "title(a-z)"
    ensures SortOrderOf(sortBy) == TitleDescending <==> Lower(value) == "title(z-a)"
    ensures SortOrderOf(sortBy) == Unsorted <==> Lower(value) != "title(a-z)" && Lower(value) != "title(z-a)"
  {
    Lower(value)
  }

  /** The 'Title(A-Z)' option reaches the listing as the ascending sort key. */
  lemma AscendingOptionSortsAscending()
    ensures SortOrderOf(HandleSortBy("Title(A-Z)")) == TitleAscending
  {
    LowerPointwise("Title(A-Z)", "title(a-z)");
  }

  /** The 'Title(Z-A)' option reaches the listing as the descending sort key. */
  lemma DescendingOptionSortsDescending()
    ensures SortOrderOf(HandleSortBy("Title(Z-A)")) == TitleDescending
  {
    LowerPointwise("Title(Z-A)", "title(z-a)");
  }

  /** The 'Sort By' placeholder, whose value is '', leaves the listing unsorted. */
  lemma PlaceholderLeavesUnsorted()
    ensures SortOrderOf(HandleSortBy("")) == Unsorted
  {
  }

  /**
   * Choosing a language offered in the drop-down lists every record of that language
   * that passes the other filters: the chosen option, lower-cased, occurs in the
   * record's lower-cased language.
   */
  lemma ChosenLanguageListsItsBooks(b: Book, query: string, language: string)
    requires b.Language == Str(language)
    requires HasImages(b) && b.Title.Str? && Includes(Lower(b.Title.s), query)
    ensures Listed(b, query, HandleSelected(language))
  {
  }

  /** Choosing 'All Languages' (value '') lists every record that has some language string. */
  lemma AllLanguagesListsEveryLanguage(b: Book, query: string)
    requires b.Language.Str?
    requires HasImages(b) && b.Title.Str? && Includes(Lower(b.Title.s), query)
    ensures Listed(b, query, HandleSelected(""))
  {
  }
}
