/**
 * The pure part of app/HomeScreen.tsx: the welcome name taken from the route, and the category
 * list shown under the selected filter button.
 */
module HomeScreen {
  import opened Wrappers
  import opened JsString

  /** A trivia category as returned by the category endpoint. */
  datatype Category = Category(id: int, name: string)

  /** `route?.params?.username || 'Guest'`: a missing or empty name falls back to "Guest". */
  function DisplayName(username: Option<string>): (shown: string)
    ensures shown != ""
    ensures username.Some? && username.value != "" ==> shown == username.value
    ensures username.None? || username.value == "" ==> shown == "Guest"
  {
    if username.Some? && username.value != "" then username.value else "Guest"
  }

  /** The filter predicate: the lower-cased name includes the lower-cased filter. */
  predicate Matches(category: Category, filter: string) {
    Includes(ToLowerCase(category.name), ToLowerCase(filter))
  }

  /** `categories.filter(...)` with the predicate `Matches`. */
  function FilterByName(categories: seq<Category>, filter: string): (kept: seq<Category>)
    ensures |kept| <= |categories|
    ensures forall c :: c in kept <==> c in categories && Matches(c, filter)
  {
    if categories == [] then []
    else
      var rest := FilterByName(categories[1..], filter);
      assert forall c :: c in categories <==> c == categories[0] || c in categories[1..];
      if Matches(categories[0], filter) then [categories[0]] + rest else rest
  }

  /** `filteredCategories`: 'All' (compared case-sensitively) shows everything. */
  function FilteredCategories(categories: seq<Category>, selectedFilter: string): (shown: seq<Category>)
    ensures selectedFilter == "All" ==> shown == categories
    ensures |shown| <= |categories|
    ensures forall c :: c in shown <==> c in categories && (selectedFilter == "All" || Matches(c, selectedFilter))
  {
    if selectedFilter == "All" then categories else FilterByName(categories, selectedFilter)
  }

  /** a is obtained from b by deleting elements: the order of what remains is b's. */
  ghost predicate IsSubsequence<T>(a: seq<T>, b: seq<T>) {
    a == [] || (b != [] && ((a[0] == b[0] && IsSubsequence(a[1..], b[1..])) || IsSubsequence(a, b[1..])))
  }

  /** 'All' is the identity; every other filter keeps a subsequence of the input. */
  lemma {:induction false} FilteredIsSubsequence(categories: seq<Category>, selectedFilter: string)
    ensures selectedFilter == "All" ==> FilteredCategories(categories, selectedFilter) == categories
    ensures IsSubsequence(FilteredCategories(categories, selectedFilter), categories)
  {
    if selectedFilter == "All" {
      SubsequenceReflexive(categories);
    } else {
      FilterIsSubsequence(categories, selectedFilter);
    }
  }

  lemma {:induction false} SubsequenceReflexive<T>(s: seq<T>)
    ensures IsSubsequence(s, s)
  {
    if s != [] {
      SubsequenceReflexive(s[1..]);
    }
  }

  lemma {:induction false} FilterIsSubsequence(categories: seq<Category>, filter: string)
    ensures IsSubsequence(FilterByName(categories, filter), categories)
  {
    if categories != [] {
      FilterIsSubsequence(categories[1..], filter);
    }
  }

  /**
   * No matching category is dropped and none is duplicated: each category occurs in the result
   * exactly as often as in the input when it matches, and not at all otherwise.
   */
  lemma {:induction false} FilterKeepsEveryMatch(categories: seq<Category>, filter: string, c: Category)
    ensures multiset(FilterByName(categories, filter))[c]
            == if Matches(c, filter) then multiset(categories)[c] else 0
  {
    if categories != [] {
      FilterKeepsEveryMatch(categories[1..], filter, c);
      assert categories == [categories[0]] + categories[1..];
    }
  }

  /** Filtering the filtered list again with the same filter changes nothing. */
  lemma {:induction false} FilterIdempotent(categories: seq<Category>, selectedFilter: string)
    ensures FilteredCategories(FilteredCategories(categories, selectedFilter), selectedFilter)
            == FilteredCategories(categories, selectedFilter)
  {
    if selectedFilter != "All" {
      FilterByNameIdempotent(categories, selectedFilter);
    }
  }

  lemma {:induction false} FilterByNameIdempotent(categories: seq<Category>, filter: string)
    ensures FilterByName(FilterByName(categories, filter), filter) == FilterByName(categories, filter)
  {
    if categories != [] {
      FilterByNameIdempotent(categories[1..], filter);
    }
  }

  /** Two filter strings that agree after lower-casing select the same categories. */
  lemma {:induction false} FilterIgnoresFilterCase(categories: seq<Category>, filter: string, other: string)
    requires ToLowerCase(filter) == ToLowerCase(other)
    ensures FilterByName(categories, filter) == FilterByName(categories, other)
  {
    if categories != [] {
      FilterIgnoresFilterCase(categories[1..], filter, other);
    }
  }

  /** Whether a category matches does not depend on the case of its name or of the filter. */
  lemma MatchIgnoresCase(category: Category, filter: string)
    ensures Matches(category, filter)
            <==> Matches(Category(category.id, ToLowerCase(category.name)), ToLowerCase(filter))
  {
    ToLowerCaseIdempotent(category.name);
    ToLowerCaseIdempotent(filter);
  }
}
