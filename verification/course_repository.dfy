/** The catalogue filters of the course repository. */
module CourseRepository {
  import opened Domain
  import Text

  /** `findByCategory`. */
  function FindByCategory(m: map<Id, Course>, category: string): (r: set<Id>)
    ensures r <= m.Keys
    ensures forall k :: k in r <==> k in m && m[k].category == category
  {
    set k | k in m && m[k].category == category
  }

  /** `findByMode`. */
  function FindByMode(m: map<Id, Course>, mode: string): (r: set<Id>)
    ensures r <= m.Keys
    ensures forall k :: k in r <==> k in m && m[k].mode == mode
  {
    set k | k in m && m[k].mode == mode
  }

  /** Case-insensitive substring match, as the upper-cased LIKE '%q%' the
      derived query issues. */
  predicate TitleMatches(title: string, query: string) {
    Text.Contains(Text.ToUpper(title), Text.ToUpper(query))
  }

  /** `findByTitleContainingIgnoreCase`. */
  function FindByTitleContainingIgnoreCase(m: map<Id, Course>, query: string): (r: set<Id>)
    ensures r <= m.Keys
    ensures forall k :: k in r <==> k in m && TitleMatches(m[k].title, query)
  {
    set k | k in m && TitleMatches(m[k].title, query)
  }

  /** `findByCertificationEligible`. */
  function FindByCertificationEligible(m: map<Id, Course>, eligible: bool): (r: set<Id>)
    ensures r <= m.Keys
    ensures forall k :: k in r <==> k in m && m[k].certificationEligible == eligible
  {
    set k | k in m && m[k].certificationEligible == eligible
  }

  /** `findByPriceLessThanEqual`. */
  function FindByPriceLessThanEqual(m: map<Id, Course>, maxPrice: real): (r: set<Id>)
    ensures r <= m.Keys
    ensures forall k :: k in r <==> k in m && m[k].price <= maxPrice
  {
    set k | k in m && m[k].price <= maxPrice
  }

  /** A higher price ceiling selects a superset. */
  lemma MaxPriceMonotone(m: map<Id, Course>, lo: real, hi: real)
    requires lo <= hi
    ensures FindByPriceLessThanEqual(m, lo) <= FindByPriceLessThanEqual(m, hi)
  {
  }

  /** The title search ignores the case of the query. */
  lemma TitleSearchIgnoresQueryCase(m: map<Id, Course>, query: string)
    ensures FindByTitleContainingIgnoreCase(m, Text.ToUpper(query)) == FindByTitleContainingIgnoreCase(m, query)
  {
    Text.ToUpperProperties(query);
  }

  /** The empty query selects every course. */
  lemma EmptyTitleQuerySelectsAll(m: map<Id, Course>)
    ensures FindByTitleContainingIgnoreCase(m, "") == m.Keys
  {
    forall k | k in m
      ensures TitleMatches(m[k].title, "")
    {
      Text.ContainsEmpty(Text.ToUpper(m[k].title));
    }
  }

  /** A longer query narrows the search: when `narrow` contains `wide`, every
      course matching `narrow` also matches `wide`. */
  lemma TitleSearchNarrows(m: map<Id, Course>, wide: string, narrow: string)
    requires Text.Contains(narrow, wide)
    ensures FindByTitleContainingIgnoreCase(m, narrow) <= FindByTitleContainingIgnoreCase(m, wide)
  {
    Text.ContainsToUpper(narrow, wide);
    forall k | k in m && TitleMatches(m[k].title, narrow)
      ensures TitleMatches(m[k].title, wide)
    {
      Text.ContainsTransitive(Text.ToUpper(m[k].title), Text.ToUpper(narrow), Text.ToUpper(wide));
    }
  }
}
