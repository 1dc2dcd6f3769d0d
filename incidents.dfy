/**
 * Incidents shown on the map, the report form that creates them, and the
 * per-category counts shown beside the map.
 */
module Incidents {
  import opened Wrappers

  /** One entry of `incidentCategories`: the value stored on an incident and the label shown (`caption`). */
  datatype Category = Category(value: string, caption: string)

  /** `incidentCategories`, in display order. */
  const IncidentCategories: seq<Category> := [
    Category("flooding", "Flooding"),
    Category("fire", "Fire"),
    Category("earthquake", "Earthquake"),
    Category("storm", "Severe Storm"),
    Category("landslide", "Landslide"),
    Category("infrastructure", "Infrastructure Damage"),
    Category("medical", "Medical Emergency"),
    Category("other", "Other")
  ]

  /**
   * The category values, in display order. They key the select items and the
   * rows of the category card, so no two of them are equal.
   */
  function CategoryValues(): (r: seq<string>)
    ensures |r| == |IncidentCategories| == 8
    ensures Distinct(r)
  {
    seq(|IncidentCategories|, k requires 0 <= k < |IncidentCategories| => IncidentCategories[k].value)
  }

  /**
   * A marker on the map. The coordinates come from `Math.random() * 100` and
   * are taken as given.
   */
  datatype Incident = Incident(id: int, x: real, y: real, description: string, category: string)

  /** What the report form hands to `onSubmit` (the media file is not kept). */
  datatype Report = Report(description: string, category: string)

  /**
   * `IncidentReportForm.handleSubmit`: the form submits a report exactly when
   * both the description and the category are non-empty; otherwise it only
   * alerts.
   */
  function HandleSubmit(description: string, category: string): (r: Option<Report>)
    ensures r.Some? <==> description != "" && category != ""
    ensures r.Some? ==> r.value.description == description && r.value.category == category
  {
    if description != "" && category != "" then Some(Report(description, category)) else None
  }

  /** Incident ids are their one-based positions, as in the initial state. */
  ghost predicate SequentialIds(incidents: seq<Incident>) {
    forall k :: 0 <= k < |incidents| ==> incidents[k].id == k + 1
  }

  /**
   * `handleSubmitIncident`: appends exactly one incident, with the report's
   * description and category, the given coordinates and id `old length + 1`;
   * the existing incidents are kept.
   */
  function AddIncident(incidents: seq<Incident>, report: Report, x: real, y: real): (r: seq<Incident>)
    ensures |r| == |incidents| + 1
    ensures r[..|incidents|] == incidents
    ensures r[|incidents|].id == |incidents| + 1
    ensures r[|incidents|].description == report.description && r[|incidents|].category == report.category
    ensures r[|incidents|].x == x && r[|incidents|].y == y
  {
    incidents + [Incident(|incidents| + 1, x, y, report.description, report.category)]
  }

  /** Submitting keeps incident ids sequential. */
  lemma AddIncidentKeepsSequentialIds(incidents: seq<Incident>, report: Report, x: real, y: real)
    requires SequentialIds(incidents)
    ensures SequentialIds(AddIncident(incidents, report, x, y))
  {
  }

  // ---------------------------------------------------------------------------
  // Category counts
  // ---------------------------------------------------------------------------

  /** `incidents.filter(incident => incident.category === category)`. */
  function WithCategory(incidents: seq<Incident>, category: string): (r: seq<Incident>)
    ensures |r| <= |incidents|
    ensures forall i :: i in r <==> i in incidents && i.category == category
  {
    if incidents == [] then []
    else (if incidents[0].category == category then [incidents[0]] else [])
         + WithCategory(incidents[1..], category)
  }

  /** The badge shown beside a category: how many incidents carry it. */
  function CategoryCount(incidents: seq<Incident>, category: string): (n: nat)
    ensures n <= |incidents|
  {
    |WithCategory(incidents, category)|
  }

  /** A category's badge shows 0 exactly when no incident carries that category. */
  lemma CategoryCountZero(incidents: seq<Incident>, category: string)
    ensures CategoryCount(incidents, category) == 0 <==>
            forall k :: 0 <= k < |incidents| ==> incidents[k].category != category
  {
    var r := WithCategory(incidents, category);
    assert r != [] ==> r[0] in r;
    assert forall k :: 0 <= k < |incidents| ==> incidents[k] in incidents;
  }

  /** Number of occurrences of `c` in `s`. */
  function Occurrences(s: seq<string>, c: string): nat {
    if s == [] then 0 else (if s[0] == c then 1 else 0) + Occurrences(s[1..], c)
  }

  /** The count of a category is its multiplicity among the incidents' categories. */
  lemma {:induction false} CategoryCountIsOccurrences(incidents: seq<Incident>, category: string)
    ensures CategoryCount(incidents, category) ==
            Occurrences(seq(|incidents|, k requires 0 <= k < |incidents| => incidents[k].category), category)
  {
    var cats := seq(|incidents|, k requires 0 <= k < |incidents| => incidents[k].category);
    if incidents != [] {
      var rest := seq(|incidents| - 1, k requires 0 <= k < |incidents| - 1 => incidents[1..][k].category);
      assert cats[1..] == rest;
      CategoryCountIsOccurrences(incidents[1..], category);
    }
  }

  /** Submitting a report raises the count of its category by one and no other. */
  lemma AddIncidentCounts(incidents: seq<Incident>, report: Report, x: real, y: real, category: string)
    ensures CategoryCount(AddIncident(incidents, report, x, y), category) ==
            CategoryCount(incidents, category) + (if report.category == category then 1 else 0)
  {
    var i := Incident(|incidents| + 1, x, y, report.description, report.category);
    WithCategoryAppend(incidents, [i], category);
    assert WithCategory([i], category) == (if report.category == category then [i] else []) by {
      assert [i][1..] == [];
    }
  }

  /** Filtering by category distributes over concatenation. */
  lemma {:induction false} WithCategoryAppend(a: seq<Incident>, b: seq<Incident>, category: string)
    ensures WithCategory(a + b, category) == WithCategory(a, category) + WithCategory(b, category)
  {
    if a == [] {
      assert a + b == b;
    } else {
      assert (a + b)[1..] == a[1..] + b;
      WithCategoryAppend(a[1..], b, category);
    }
  }

  /** The counts over a list of categories, in its order. */
  function CountsOver(incidents: seq<Incident>, categories: seq<string>): (r: seq<nat>)
    ensures |r| == |categories|
    ensures forall k :: 0 <= k < |r| ==> r[k] == CategoryCount(incidents, categories[k])
  {
    if categories == [] then []
    else [CategoryCount(incidents, categories[0])] + CountsOver(incidents, categories[1..])
  }

  /** The "Incident Categories" card: one count per entry of `incidentCategories`. */
  function CategoryCounts(incidents: seq<Incident>): (r: seq<nat>)
    ensures |r| == |IncidentCategories|
    ensures forall k :: 0 <= k < |r| ==> r[k] == CategoryCount(incidents, IncidentCategories[k].value)
  {
    CountsOver(incidents, CategoryValues())
  }

  function Sum(s: seq<nat>): nat {
    if s == [] then 0 else s[0] + Sum(s[1..])
  }

  /** No value occurs twice. */
  ghost predicate Distinct(s: seq<string>) {
    forall i, j :: 0 <= i < j < |s| ==> s[i] != s[j]
  }

  /** Every incident carries one of the listed categories. */
  ghost predicate KnownCategories(incidents: seq<Incident>) {
    forall k :: 0 <= k < |incidents| ==> incidents[k].category in CategoryValues()
  }

  /** Adding an incident in front adds, over all categories, the occurrences of its category. */
  lemma {:induction false} CountsOverCons(i: Incident, rest: seq<Incident>, categories: seq<string>)
    ensures Sum(CountsOver([i] + rest, categories)) ==
            Occurrences(categories, i.category) + Sum(CountsOver(rest, categories))
  {
    if categories != [] {
      assert ([i] + rest)[1..] == rest;
      CountsOverCons(i, rest, categories[1..]);
    }
  }

  /** A value occurs once in a list without repetitions that contains it. */
  lemma {:induction false} OccursOnce(s: seq<string>, c: string)
    requires Distinct(s) && c in s
    ensures Occurrences(s, c) == 1
  {
    if s[0] == c {
      OccursNever(s[1..], c);
    } else {
      OccursOnce(s[1..], c);
    }
  }

  lemma {:induction false} OccursNever(s: seq<string>, c: string)
    requires c !in s
    ensures Occurrences(s, c) == 0
  {
    if s != [] {
      OccursNever(s[1..], c);
    }
  }

  /** Over distinct categories that cover every incident, the counts add up to the number of incidents. */
  lemma {:induction false} CountsOverSum(incidents: seq<Incident>, categories: seq<string>)
    requires Distinct(categories)
    requires forall k :: 0 <= k < |incidents| ==> incidents[k].category in categories
    ensures Sum(CountsOver(incidents, categories)) == |incidents|
  {
    if incidents == [] {
      CountsOverZero(categories);
    } else {
      var i, rest := incidents[0], incidents[1..];
      assert incidents == [i] + rest;
      CountsOverCons(i, rest, categories);
      OccursOnce(categories, i.category);
      CountsOverSum(rest, categories);
    }
  }

  lemma {:induction false} CountsOverZero(categories: seq<string>)
    ensures Sum(CountsOver([], categories)) == 0
  {
    if categories != [] {
      CountsOverZero(categories[1..]);
    }
  }

  /**
   * When every incident's category comes from `incidentCategories`, the
   * counts on the category card add up to the number of incidents.
   */
  lemma CategoryCountsSum(incidents: seq<Incident>)
    requires KnownCategories(incidents)
    ensures Sum(CategoryCounts(incidents)) == |incidents|
  {
    var values := CategoryValues();
    CountsOverSum(incidents, values);
  }
}
