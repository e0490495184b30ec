/** The service catalogue screen of frontend/src/pages/citizen/ServicesPage.tsx: the
    effect that narrows the fetched services by the selected category and the
    search text, the category toggle, and the list of distinct categories. */
module ServicesPage {
  import opened Common
  import opened Seqs
  import opened Text

  /** A JavaScript-truthy optional string: present and not empty. */
  predicate Truthy(s: Option<string>)
  {
    s.Some? && s.value != ""
  }

  /** `service.category === selectedCategory`. */
  predicate InCategory(s: Service, category: string)
  {
    s.category == Some(category)
  }

  function CategoryIs(category: string): Service -> bool
  {
    s => InCategory(s, category)
  }

  /** The search test: the lower-cased query occurs in the lower-cased name, or in
      the lower-cased description when there is a non-empty one. */
  predicate MatchesSearch(s: Service, lowerQuery: string)
  {
    || Includes(Lower(s.name), lowerQuery)
    || (Truthy(s.description) && Includes(Lower(s.description.value), lowerQuery))
  }

  function SearchFor(lowerQuery: string): Service -> bool
  {
    s => MatchesSearch(s, lowerQuery)
  }

  /** The filtering effect: the category filter when a category is selected, then
      the search filter when the query is not empty. */
  function FilterServices(services: seq<Service>, selectedCategory: Option<string>,
                          searchQuery: string): (r: seq<Service>)
    ensures forall s :: s in r <==>
              && s in services
              && (Truthy(selectedCategory) ==> InCategory(s, selectedCategory.value))
              && (searchQuery != "" ==> MatchesSearch(s, Lower(searchQuery)))
  {
    var currentServices :=
      if Truthy(selectedCategory) then Filter(services, CategoryIs(selectedCategory.value))
      else services;
    if searchQuery != "" then Filter(currentServices, SearchFor(Lower(searchQuery))) else currentServices
  }

  /** With no category selected and an empty query every service is shown, in order. */
  lemma NoFilterShowsAll(services: seq<Service>, selectedCategory: Option<string>)
    requires !Truthy(selectedCategory)
    ensures FilterServices(services, selectedCategory, "") == services
  {
  }

  /** The shown services keep the order of the fetched list: both filters together
      are one order-preserving filter. */
  lemma FilterKeepsOrder(services: seq<Service>, selectedCategory: Option<string>, searchQuery: string)
    ensures IsSubsequence(FilterServices(services, selectedCategory, searchQuery), services)
  {
    var r := FilterServices(services, selectedCategory, searchQuery);
    if Truthy(selectedCategory) && searchQuery != "" {
      var p := CategoryIs(selectedCategory.value);
      var q := SearchFor(Lower(searchQuery));
      FilterFilter(services, p, q);
      FilterIsSubsequence(services, Both(p, q));
    } else if Truthy(selectedCategory) {
      FilterIsSubsequence(services, CategoryIs(selectedCategory.value));
    } else if searchQuery != "" {
      FilterIsSubsequence(services, SearchFor(Lower(searchQuery)));
    } else {
      SubsequenceOfItself(services);
    }
  }

  /** The search ignores case: queries equal up to case show the same services. */
  lemma SearchIgnoresCase(services: seq<Service>, selectedCategory: Option<string>, q1: string, q2: string)
    requires Lower(q1) == Lower(q2)
    ensures FilterServices(services, selectedCategory, q1) == FilterServices(services, selectedCategory, q2)
  {
    assert q1 == "" <==> q2 == "";
  }

  /** `handleCategoryClick`: clicking the selected category clears the selection,
      clicking any other category selects it. */
  function ToggleCategory(selectedCategory: Option<string>, category: string): (r: Option<string>)
    ensures selectedCategory == Some(category) <==> r.None?
    ensures r.Some? ==> r.value == category
  {
    if selectedCategory == Some(category) then None else Some(category)
  }

  /** Clicking a category twice, from any selection other than that category,
      ends with no selection; the first click always selects it. */
  lemma ToggleTwiceClears(selectedCategory: Option<string>, category: string)
    requires selectedCategory != Some(category)
    ensures ToggleCategory(selectedCategory, category) == Some(category)
    ensures ToggleCategory(ToggleCategory(selectedCategory, category), category) == None
  {
  }

  /** The truthy categories of the services, in list order. */
  function Categories(services: seq<Service>): (r: seq<string>)
    ensures forall c :: c in r <==> c != "" && exists s :: s in services && s.category == Some(c)
  {
    if services == [] then []
    else
      var rest := Categories(services[1..]);
      assert forall s :: s in services[1..] ==> s in services;
      assert forall s :: s in services ==> s == services[0] || s in services[1..];
      if Truthy(services[0].category) then [services[0].category.value] + rest else rest
  }

  /** The position of the first occurrence of `x` in `xs`, or |xs| when there is none. */
  function FirstPosition(xs: seq<string>, x: string): (k: nat)
    ensures k <= |xs|
    ensures k < |xs| ==> xs[k] == x
    ensures forall j :: 0 <= j < k ==> xs[j] != x
  {
    if xs == [] then 0
    else if xs[0] == x then 0
    else 1 + FirstPosition(xs[1..], x)
  }

  /** Appending a value changes no first occurrence already present, and a new
      value first occurs at the end. */
  lemma FirstPositionSnoc(p: seq<string>, y: string)
    ensures forall x :: x in p ==> FirstPosition(p + [y], x) == FirstPosition(p, x) < |p|
    ensures y !in p ==> FirstPosition(p + [y], y) == |p|
  {
    var q := p + [y];
    forall x | x in p ensures FirstPosition(q, x) == FirstPosition(p, x) < |p| {
      var k := FirstPosition(p, x);
      var k' := FirstPosition(q, x);
      assert q[k] == x;
      assert k' <= k;
    }
    if y !in p {
      assert q[|p|] == y;
      assert forall j :: 0 <= j < |p| ==> q[j] == p[j];
    }
  }

  /** `Array.from(new Set(xs))`: each value once, in the order of first occurrence. */
  function Distinct(xs: seq<string>): (r: seq<string>)
    ensures forall c :: c in r <==> c in xs
    ensures forall i, j :: 0 <= i < j < |r| ==> r[i] != r[j]
    ensures forall i, j :: 0 <= i < j < |r| ==> FirstPosition(xs, r[i]) < FirstPosition(xs, r[j])
  {
    if xs == [] then []
    else
      var init := Distinct(xs[..|xs| - 1]);
      var last := xs[|xs| - 1];
      assert xs == xs[..|xs| - 1] + [last];
      FirstPositionSnoc(xs[..|xs| - 1], last);
      if last in init then init else init + [last]
  }

  /** `uniqueCategories`: the distinct non-empty categories of the services. */
  function UniqueCategories(services: seq<Service>): (r: seq<string>)
    ensures forall c :: c in r <==> c != "" && exists s :: s in services && s.category == Some(c)
    ensures forall i, j :: 0 <= i < j < |r| ==> r[i] != r[j]
  {
    Distinct(Categories(services))
  }
}
