/**
  The student-services directory: the fixed service catalogue, the
  search filter behind the search box and category picker, and the
  development-time sanity check on the catalogue.
*/
module StudentServices {
  import Text
  import Seqs
  import opened Options

  datatype Contact = Contact(
    email: Option<string>,
    phone: Option<string>,
    location: Option<string>,
    cost: Option<string>)

  /** A directory entry; the icon is presentation only and is not modelled. */
  datatype Service = Service(
    id: string,
    name: string,
    description: string,
    category: string,
    tags: seq<string>,
    contact: Contact)

  /** The category that disables the category check. */
  const AllCategories: string := "All"

  /** The choices offered by the category picker, in display order. */
  const Categories: seq<string> :=
    ["All", "Academic", "Finance", "Career", "Wellness", "Technology", "Campus Life", "Facilities"]

  function Listed(email: string, phone: string, location: string): Contact {
    Contact(Some(email), Some(phone), Some(location), None)
  }

  function Priced(email: string, phone: string, location: string, cost: string): Contact {
    Contact(Some(email), Some(phone), Some(location), Some(cost))
  }

  /** The catalogue shown by the directory, in display order. */
  const Catalogue: seq<Service> := [
    Service("printing", "Printing & Copy Services",
      "High\U{2011}quality printing, scanning, and copying for assignments and posters.",
      "Facilities", ["printing", "copying", "poster"],
      Priced("printshop@university.edu", "(555) 123-7000", "Library 1F", "$0.10 per B/W page")),
    Service("catering", "Campus Catering",
      "Full\U{2011}service catering for events, meetings, and student gatherings.",
      "Facilities", ["food", "events", "orders"],
      Priced("catering@university.edu", "(555) 123-7100", "Dining Services", "Varies by menu")),
    Service("bookstore", "Campus Bookstore",
      "Purchase textbooks, university apparel, and class supplies.",
      "Facilities", ["books", "merch", "supplies"],
      Priced("bookstore@university.edu", "(555) 123-7200", "Student Center 1F", "Varies")),
    Service("advising", "Academic Advising",
      "Plan your courses, map your degree, and stay on track to graduate.",
      "Academic", ["appointments", "degree audit", "registration"],
      Listed("advising@university.edu", "(555) 123-1000", "Library, 2nd Floor")),
    Service("fin-aid", "Financial Aid",
      "Grants, scholarships, FAFSA help, and budgeting workshops.",
      "Finance", ["fafsa", "scholarships", "grants"],
      Listed("finaid@university.edu", "(555) 123-2000", "Admin Hall, Room 110")),
    Service("career", "Career Services",
      "Resumes, mock interviews, internships, and job fairs.",
      "Career", ["resume", "internships", "jobs"],
      Listed("careers@university.edu", "(555) 123-3000", "Innovation Hub")),
    Service("counseling", "Counseling & Wellness",
      "Confidential counseling, support groups, and wellness coaching.",
      "Wellness", ["mental health", "wellbeing", "support"],
      Listed("wellness@university.edu", "(555) 123-4000", "Health Center")),
    Service("it", "IT Help Desk",
      "Tech support, software access, and Wi\U{2011}Fi troubleshooting.",
      "Technology", ["wifi", "software", "accounts"],
      Listed("helpdesk@university.edu", "(555) 123-5000", "Tech Commons")),
    Service("student-life", "Student Life & Orgs",
      "Clubs, leadership, volunteering, and campus events.",
      "Campus Life", ["clubs", "leadership", "events"],
      Listed("studentlife@university.edu", "(555) 123-6000", "Campus Center"))
  ]

  // ---------- The search filter ----------

  /** The query as it is matched: trimmed, then lowercased. */
  function NormalizeQuery(query: string): string {
    Text.Lower(Text.Trim(query))
  }

  /** The category check: "All" admits every service, anything else only an exact match. */
  predicate InCategory(s: Service, category: string) {
    category == AllCategories || s.category == category
  }

  /** The text searched: name, description and tags, separated by single spaces. */
  function Haystack(s: Service): string {
    s.name + " " + s.description + " " + Text.Join(s.tags, " ")
  }

  /** The filter callback for one service. */
  predicate Passes(s: Service, query: string, category: string) {
    var q := NormalizeQuery(query);
    if q == [] then InCategory(s, category)
    else InCategory(s, category) && Text.Contains(Text.Lower(Haystack(s)), q)
  }

  /**
    The services that pass the search, in catalogue order. Each occurrence
    of a service is kept exactly when it passes the callback: the result
    holds a passing service as often as the input does, and nothing is
    reordered.
  */
  function Filter(services: seq<Service>, query: string, category: string): (r: seq<Service>)
    ensures forall x :: x in r <==> x in services && Passes(x, query, category)
    ensures forall x :: multiset(r)[x] == if Passes(x, query, category) then multiset(services)[x] else 0
    ensures Seqs.IsSubsequence(r, services)
  {
    if |services| == 0 then []
    else
      var rest := Filter(services[1..], query, category);
      assert services == [services[0]] + services[1..];
      if Passes(services[0], query, category) then [services[0]] + rest else rest
  }

  // ---------- Development-time sanity check ----------

  predicate DistinctIds(services: seq<Service>) {
    forall i, j :: 0 <= i < j < |services| ==> services[i].id != services[j].id
  }

  predicate HasCost(s: Service) {
    s.contact.cost.Some? && |s.contact.cost.value| > 0
  }

  predicate FacilitiesHaveCost(services: seq<Service>) {
    forall i :: 0 <= i < |services| && services[i].category == "Facilities" ==> HasCost(services[i])
  }

  /**
    The development-build check over a catalogue: ids are unique and every
    Facilities service has a non-empty cost. `ok` is true exactly when no
    assertion of the check fails.
  */
  method SanityCheck(services: seq<Service>) returns (ok: bool)
    ensures ok <==> DistinctIds(services) && FacilitiesHaveCost(services)
  {
    var ids: set<string> := {};
    ok := true;
    for k := 0 to |services|
      invariant ids == set i | 0 <= i < k :: services[i].id
      invariant ok <==> DistinctIds(services[..k]) && FacilitiesHaveCost(services[..k])
    {
      var s := services[k];
      var duplicate := s.id in ids;
      if duplicate {
        ok := false;
      }
      ids := ids + {s.id};
      if s.category == "Facilities" && !HasCost(s) {
        ok := false;
      }
      PrefixStep(services, k, duplicate);
    }
    assert services[..|services|] == services;
  }

  lemma PrefixStep(services: seq<Service>, k: nat, duplicate: bool)
    requires k < |services|
    requires duplicate <==> services[k].id in (set i | 0 <= i < k :: services[i].id)
    ensures DistinctIds(services[..k + 1])
        <==> DistinctIds(services[..k]) && !duplicate
    ensures FacilitiesHaveCost(services[..k + 1])
        <==> FacilitiesHaveCost(services[..k]) && (services[k].category == "Facilities" ==> HasCost(services[k]))
  {
    var p := services[..k + 1];
    assert services[..k] == p[..k];
    if duplicate {
      var i :| 0 <= i < k && services[i].id == services[k].id;
      assert p[i].id == p[k].id;
    }
  }

  // ---------- Lemmas ----------

  /** The shipped catalogue passes its own sanity check. */
  lemma CatalogueIsSane()
    ensures DistinctIds(Catalogue) && FacilitiesHaveCost(Catalogue)
  {
    CatalogueIdsDistinct();
    CatalogueFacilitiesPriced();
  }

  lemma CatalogueIdsDistinct()
    ensures DistinctIds(Catalogue)
  {
  }

  lemma CatalogueFacilitiesPriced()
    ensures FacilitiesHaveCost(Catalogue)
  {
  }

  /** Every catalogue category is one the picker offers, other than "All". */
  lemma CatalogueCategoriesListed()
    ensures forall s :: s in Catalogue ==> s.category in Categories[1..]
  {
  }

  /** Services with a blank query are selected by category alone. */
  lemma {:induction false} BlankQueryFiltersByCategoryOnly(services: seq<Service>, query: string, category: string)
    requires Text.IsBlank(query)
    ensures Filter(services, query, category) == Filter(services, "", category)
    ensures category == AllCategories ==> Filter(services, query, category) == services
    decreases |services|
  {
    Text.TrimEmptyIffBlank(query);
    if |services| > 0 {
      BlankQueryFiltersByCategoryOnly(services[1..], query, category);
    }
  }

  /** Two queries with the same normal form select the same services. */
  lemma {:induction false} FilterDependsOnNormalForm(services: seq<Service>, q1: string, q2: string, category: string)
    requires NormalizeQuery(q1) == NormalizeQuery(q2)
    ensures Filter(services, q1, category) == Filter(services, q2, category)
    decreases |services|
  {
    if |services| > 0 {
      FilterDependsOnNormalForm(services[1..], q1, q2, category);
    }
  }

  /** Matching ignores the case of the query... */
  lemma FilterIgnoresCase(services: seq<Service>, query: string, category: string)
    ensures Filter(services, Text.Lower(query), category) == Filter(services, query, category)
  {
    Text.TrimCommutesWithLower(query);
    Text.LowerIdempotent(Text.Trim(query));
    FilterDependsOnNormalForm(services, Text.Lower(query), query, category);
  }

  /** ... and the whitespace around it. */
  lemma FilterIgnoresPadding(services: seq<Service>, left: string, query: string, right: string, category: string)
    requires Text.IsBlank(left) && Text.IsBlank(right)
    ensures Filter(services, left + query + right, category) == Filter(services, query, category)
  {
    Text.TrimIgnoresPadding(left, query, right);
    FilterDependsOnNormalForm(services, left + query + right, query, category);
  }

  lemma FafsaTrimmed()
    ensures Text.Trim("  FAFSA ") == "FAFSA"
  {
    FafsaTrimStart();
    FafsaTrimEnd();
  }

  lemma FafsaTrimStart()
    ensures Text.TrimStart("  FAFSA ") == "FAFSA "
  {
    var padded := "  FAFSA ";
    assert padded[1..] == " FAFSA " && padded[1..][1..] == "FAFSA ";
    Text.TrimStartOfTrimmed("FAFSA ");
  }

  lemma FafsaTrimEnd()
    ensures Text.TrimEnd("FAFSA ") == "FAFSA"
  {
    assert "FAFSA "[..5] == "FAFSA";
    Text.TrimEndOfTrimmed("FAFSA");
  }

  lemma FafsaLowerTrimmed()
    ensures Text.Trim("fafsa") == "fafsa"
  {
    Text.TrimOfUnpadded("fafsa");
  }

  lemma FafsaLowered()
    ensures Text.Lower("FAFSA") == Text.Lower("fafsa") == "fafsa"
  {
  }

  lemma FafsaNormalForm()
    ensures NormalizeQuery("  FAFSA ") == NormalizeQuery("fafsa") == "fafsa"
  {
    FafsaTrimmed();
    FafsaLowerTrimmed();
    FafsaLowered();
    NormalFormOfTrimmed("  FAFSA ", "FAFSA");
    NormalFormOfTrimmed("fafsa", "fafsa");
  }

  lemma NormalFormOfTrimmed(q: string, t: string)
    requires Text.Trim(q) == t
    ensures NormalizeQuery(q) == Text.Lower(t)
  {
  }

  /** "  FAFSA " and "fafsa" give the same result. */
  lemma FafsaExample(services: seq<Service>, category: string)
    ensures Filter(services, "  FAFSA ", category) == Filter(services, "fafsa", category)
  {
    FafsaNormalForm();
    FilterDependsOnNormalForm(services, "  FAFSA ", "fafsa", category);
  }

  /** For a fixed query, any one category selects a subsequence of what "All" selects. */
  lemma {:induction false} CategoryNarrowsAll(services: seq<Service>, query: string, category: string)
    ensures Seqs.IsSubsequence(Filter(services, query, category), Filter(services, query, AllCategories))
    decreases |services|
  {
    if |services| > 0 {
      CategoryNarrowsAll(services[1..], query, category);
    }
  }

  /** Filtering a catalogue with unique ids yields unique ids. */
  lemma {:induction false} FilterKeepsIdsDistinct(services: seq<Service>, query: string, category: string)
    requires DistinctIds(services)
    ensures DistinctIds(Filter(services, query, category))
    decreases |services|
  {
    if |services| > 0 {
      var rest := Filter(services[1..], query, category);
      TailKeepsIdsDistinct(services);
      FilterKeepsIdsDistinct(services[1..], query, category);
      if Passes(services[0], query, category) {
        HeadIdNotInTail(services, rest);
        ConsKeepsIdsDistinct(services[0], rest);
      }
    }
  }

  lemma TailKeepsIdsDistinct(services: seq<Service>)
    requires DistinctIds(services) && |services| > 0
    ensures DistinctIds(services[1..])
  {
    var tail := services[1..];
    forall i, j | 0 <= i < j < |tail| ensures tail[i].id != tail[j].id {
      assert tail[i] == services[i + 1] && tail[j] == services[j + 1];
    }
  }

  lemma HeadIdNotInTail(services: seq<Service>, rest: seq<Service>)
    requires DistinctIds(services) && |services| > 0
    requires forall x :: x in rest ==> x in services[1..]
    ensures forall x :: x in rest ==> x.id != services[0].id
  {
    forall x | x in rest ensures x.id != services[0].id {
      var m :| 0 <= m < |services[1..]| && services[1..][m] == x;
      assert services[m + 1] == x;
    }
  }

  lemma ConsKeepsIdsDistinct(x: Service, rest: seq<Service>)
    requires DistinctIds(rest)
    requires forall y :: y in rest ==> y.id != x.id
    ensures DistinctIds([x] + rest)
  {
    var r := [x] + rest;
    forall i, j | 0 <= i < j < |r| ensures r[i].id != r[j].id {
      assert r[j] == rest[j - 1] && r[j] in rest;
      if i > 0 {
        assert r[i] == rest[i - 1];
      }
    }
  }

  /** A service whose searched text contains the query, and whose category passes, is found. */
  lemma HaystackMatchFindsService(services: seq<Service>, s: Service, query: string, category: string)
    requires s in services && InCategory(s, category)
    requires Text.Contains(Text.Lower(Haystack(s)), NormalizeQuery(query))
    ensures s in Filter(services, query, category)
  {
    assert Passes(s, query, category);
  }

  lemma TagInHaystack(s: Service, k: int)
    requires 0 <= k < |s.tags|
    ensures Text.Contains(Text.Lower(Haystack(s)), Text.Lower(s.tags[k]))
  {
    var tags := Text.Join(s.tags, " ");
    var front := s.name + " " + s.description + " ";
    Text.JoinContainsParts(s.tags, " ", k);
    LowerKeepsContains(tags, s.tags[k]);
    Text.ContainsInLarger(Text.Lower(front), Text.Lower(tags), "", Text.Lower(s.tags[k]));
    Text.LowerConcat(front, tags);
    assert Haystack(s) == front + tags;
    assert Text.Lower(front) + Text.Lower(tags) + "" == Text.Lower(Haystack(s));
  }

  lemma NameInHaystack(s: Service, needle: string)
    requires Text.Contains(Text.Lower(s.name), needle)
    ensures Text.Contains(Text.Lower(Haystack(s)), needle)
  {
    var back := " " + s.description + " " + Text.Join(s.tags, " ");
    Text.ContainsInLarger("", Text.Lower(s.name), Text.Lower(back), needle);
    Text.LowerConcat(s.name, back);
    assert Haystack(s) == s.name + back;
    assert "" + Text.Lower(s.name) + Text.Lower(back) == Text.Lower(Haystack(s));
  }

  /** A query that names one of a service's tags finds that service. */
  lemma TagQueryFindsService(services: seq<Service>, s: Service, k: int, query: string, category: string)
    requires s in services && InCategory(s, category)
    requires 0 <= k < |s.tags| && NormalizeQuery(query) == Text.Lower(s.tags[k])
    ensures s in Filter(services, query, category)
  {
    TagInHaystack(s, k);
    HaystackMatchFindsService(services, s, query, category);
  }

  /** A query that occurs in a service's name finds that service. */
  lemma NameQueryFindsService(services: seq<Service>, s: Service, query: string, category: string)
    requires s in services && InCategory(s, category)
    requires Text.Contains(Text.Lower(s.name), NormalizeQuery(query))
    ensures s in Filter(services, query, category)
  {
    NameInHaystack(s, NormalizeQuery(query));
    HaystackMatchFindsService(services, s, query, category);
  }

  lemma LowerKeepsContains(hay: string, needle: string)
    requires Text.Contains(hay, needle)
    ensures Text.Contains(Text.Lower(hay), Text.Lower(needle))
  {
    var i :| 0 <= i <= |hay| && Text.OccursAt(hay, needle, i);
    assert Text.Lower(hay)[i..i + |needle|] == Text.Lower(hay[i..i + |needle|]);
    assert Text.OccursAt(Text.Lower(hay), Text.Lower(needle), i);
  }
}
