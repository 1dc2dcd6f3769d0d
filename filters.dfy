/** The active filter labels shown as badges beneath the search bar. */
module Filters {
  import opened Wrappers

  /**
   * `handleAddFilter`: `input` is what the prompt returned (`None` when it
   * was cancelled). Only a non-empty string is appended, at the end.
   */
  function WithFilter(filters: seq<string>, input: Option<string>): (r: seq<string>)
    ensures |r| == |filters| || |r| == |filters| + 1
    ensures |r| == |filters| + 1 <==> input.Some? && input.value != ""
    ensures r[..|filters|] == filters
    ensures |r| == |filters| + 1 ==> r[|filters|] == input.value
  {
    if input.Some? && input.value != "" then filters + [input.value] else filters
  }

  /** `handleRemoveFilter`: `prev.filter(f => f !== filter)`. */
  function RemoveFilter(filters: seq<string>, filter: string): (r: seq<string>)
    ensures filter !in r
    ensures multiset(r) == multiset(filters)[filter := 0]
  {
    if filters == [] then []
    else
      assert filters == [filters[0]] + filters[1..];
      (if filters[0] == filter then [] else [filters[0]]) + RemoveFilter(filters[1..], filter)
  }

  /** Removing keeps the remaining filters in their order: it distributes over concatenation. */
  lemma {:induction false} RemoveFilterAppend(a: seq<string>, b: seq<string>, filter: string)
    ensures RemoveFilter(a + b, filter) == RemoveFilter(a, filter) + RemoveFilter(b, filter)
  {
    if a == [] {
      assert a + b == b;
    } else {
      assert (a + b)[1..] == a[1..] + b;
      RemoveFilterAppend(a[1..], b, filter);
    }
  }

  /** Removing a filter that is not active changes nothing. */
  lemma {:induction false} RemoveAbsentFilter(filters: seq<string>, filter: string)
    requires filter !in filters
    ensures RemoveFilter(filters, filter) == filters
  {
    if filters != [] {
      RemoveAbsentFilter(filters[1..], filter);
      assert [filters[0]] + filters[1..] == filters;
    }
  }

  /** Removing the same filter twice gives the same list as removing it once. */
  lemma RemoveFilterIdempotent(filters: seq<string>, filter: string)
    ensures RemoveFilter(RemoveFilter(filters, filter), filter) == RemoveFilter(filters, filter)
  {
    RemoveAbsentFilter(RemoveFilter(filters, filter), filter);
  }

  /** Removing two filters gives the same list in either order. */
  lemma {:induction false} RemoveFiltersCommute(filters: seq<string>, f: string, g: string)
    ensures RemoveFilter(RemoveFilter(filters, f), g) == RemoveFilter(RemoveFilter(filters, g), f)
  {
    if filters != [] {
      var h, t := filters[0], filters[1..];
      RemoveFiltersCommute(t, f, g);
      RemoveFilterAppend(if h == f then [] else [h], RemoveFilter(t, f), g);
      RemoveFilterAppend(if h == g then [] else [h], RemoveFilter(t, g), f);
      assert RemoveFilter([h], f) == (if h == f then [] else [h]) by { assert [h][1..] == []; }
      assert RemoveFilter([h], g) == (if h == g then [] else [h]) by { assert [h][1..] == []; }
    }
  }

  /** Adding a filter and then removing it leaves what removing it alone would. */
  lemma AddThenRemove(filters: seq<string>, filter: string)
    ensures RemoveFilter(WithFilter(filters, Some(filter)), filter) == RemoveFilter(filters, filter)
  {
    if filter != "" {
      RemoveFilterAppend(filters, [filter], filter);
      assert RemoveFilter([filter], filter) == [] by { assert [filter][1..] == []; }
    }
  }
}
