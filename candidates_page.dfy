/** The list derivations of the candidates page (client/src/pages/candidates.tsx): the search and
    filter predicate, the de-duplicated skill list offered as a filter, and the nine-per-page slicing. */
module CandidatesPage {
  import opened Seqs
  import opened Text
  import opened Schema
  import Pagination

  const ItemsPerPage := 9

  /** What the user has typed and picked; "all" switches a filter off. */
  datatype Filters = Filters(search: string, status: string, skill: string, availability: string)

  const NoFilters := Filters("", "all", "all", "all")

  /** The query, lower-cased, occurs in the name, the e-mail or the current role (lower-cased). */
  predicate MatchesSearch(c: Candidate, query: string) {
    query == ""
    || IncludesIgnoringCase(c.fullName, query)
    || IncludesIgnoringCase(c.email, query)
    || IncludesIgnoringCase(c.currentRole, query)
  }

  predicate MatchesStatus(c: Candidate, status: string) {
    status == "all" || SameIgnoringCase(c.status, status)
  }

  /** The skill filter is a substring test on the whole comma-separated skills text. */
  predicate MatchesSkill(c: Candidate, skill: string) {
    skill == "all" || IncludesIgnoringCase(c.skills, skill)
  }

  predicate MatchesAvailability(c: Candidate, availability: string) {
    availability == "all" || SameIgnoringCase(c.availability, availability)
  }

  predicate Keeps(f: Filters, c: Candidate) {
    MatchesSearch(c, f.search) && MatchesStatus(c, f.status)
    && MatchesSkill(c, f.skill) && MatchesAvailability(c, f.availability)
  }

  /** The candidates that pass every filter, in their original order. */
  function FilteredCandidates(cs: seq<Candidate>, f: Filters): (r: seq<Candidate>)
    ensures forall i :: 0 <= i < |r| ==> r[i] in cs && Keeps(f, r[i])
    ensures forall i :: 0 <= i < |cs| && Keeps(f, cs[i]) ==> cs[i] in r
    ensures IsSubsequence(r, cs)
  {
    Filter(cs, c => Keeps(f, c))
  }

  /** With nothing typed and every filter on "all", every candidate is listed. */
  lemma NoFiltersKeepAll(cs: seq<Candidate>)
    ensures FilteredCandidates(cs, NoFilters) == cs
  {
    assert forall i :: 0 <= i < |cs| ==> Keeps(NoFilters, cs[i]);
  }

  /** The empty-query test is only a short cut: every text includes the empty query. */
  lemma EmptySearchShortCut(c: Candidate, query: string)
    ensures MatchesSearch(c, query) <==>
      IncludesIgnoringCase(c.fullName, query) || IncludesIgnoringCase(c.email, query)
      || IncludesIgnoringCase(c.currentRole, query)
  {
    if query == "" {
      assert Lower(query) == "";
      IncludesTrivial(Lower(c.fullName));
    }
  }

  // --- The skill list

  /** A slice holds no character its sequence does not hold. */
  lemma SliceKeepsOut(s: string, c: char, a: nat, b: nat)
    requires c !in s && a <= b <= |s|
    ensures c !in s[a..b]
  {
    forall k | 0 <= k < b - a ensures s[a..b][k] != c {
      assert s[a..b][k] == s[a + k];
    }
  }

  /** Trimming a piece without a comma leaves a piece without a comma. */
  lemma TrimKeepsOut(s: string, c: char)
    requires c !in s
    ensures c !in Trim(s)
  {
    var t := TrimStart(s);
    SliceKeepsOut(s, c, |s| - |t|, |s|);
    assert t == s[|s| - |t|..|s|];
    var u := TrimEnd(t);
    SliceKeepsOut(t, c, 0, |u|);
    assert u == t[0..|u|];
  }

  /** A skill as offered in the filter: no comma, no surrounding white space. */
  predicate IsSkillTag(s: string) {
    ',' !in s && Trim(s) == s
  }

  /** A trimmed piece of a comma split is a skill tag. */
  lemma TrimmedPieceIsTag(piece: string)
    requires ',' !in piece
    ensures IsSkillTag(Trim(piece))
  {
    TrimKeepsOut(piece, ',');
    TrimIdempotent(piece);
  }

  /** `c.skills.split(",").map(s => s.trim())`: the skill tags of one candidate. */
  function SkillsOf(c: Candidate): (r: seq<string>)
    ensures forall k :: 0 <= k < |r| ==> IsSkillTag(r[k])
  {
    var parts := Split(c.skills, ',');
    var r := seq(|parts|, i requires 0 <= i < |parts| => Trim(parts[i]));
    forall k | 0 <= k < |r| ensures IsSkillTag(r[k]) {
      TrimmedPieceIsTag(parts[k]);
    }
    r
  }

  /** `candidates.flatMap(c => c.skills.split(",")).map(s => s.trim())`. */
  function SkillPieces(cs: seq<Candidate>): (r: seq<string>)
    ensures forall i, s :: 0 <= i < |cs| && s in SkillsOf(cs[i]) ==> s in r
    ensures forall k :: 0 <= k < |r| ==> exists i :: 0 <= i < |cs| && r[k] in SkillsOf(cs[i])
  {
    if cs == [] then []
    else
      var head, rest := SkillsOf(cs[0]), SkillPieces(cs[1..]);
      assert forall i :: 1 <= i < |cs| ==> cs[i] == cs[1..][i - 1];
      var r := head + rest;
      forall k | 0 <= k < |r| ensures exists i :: 0 <= i < |cs| && r[k] in SkillsOf(cs[i]) {
        if k < |head| {
          assert r[k] in SkillsOf(cs[0]);
        } else {
          assert r[k] == rest[k - |head|];
          var i :| 0 <= i < |cs[1..]| && rest[k - |head|] in SkillsOf(cs[1..][i]);
          assert r[k] in SkillsOf(cs[i + 1]);
        }
      }
      r
  }

  /** Every piece of the flattened list is a skill tag of some candidate. */
  lemma PieceIsTag(cs: seq<Candidate>, x: string)
    requires x in SkillPieces(cs)
    ensures IsSkillTag(x)
    ensures exists i :: 0 <= i < |cs| && x in SkillsOf(cs[i])
  {
    var pieces := SkillPieces(cs);
    var k :| 0 <= k < |pieces| && pieces[k] == x;
    var i :| 0 <= i < |cs| && x in SkillsOf(cs[i]);
    var t :| 0 <= t < |SkillsOf(cs[i])| && SkillsOf(cs[i])[t] == x;
  }

  /** `allSkills`: every skill tag of every candidate, each once, in order of first occurrence,
      and nothing else. */
  function AllSkills(cs: seq<Candidate>): (r: seq<string>)
    ensures NoDuplicates(r)
    ensures forall k :: 0 <= k < |r| ==> IsSkillTag(r[k])
    ensures forall i, s :: 0 <= i < |cs| && s in SkillsOf(cs[i]) ==> s in r
    ensures forall k :: 0 <= k < |r| ==> exists i :: 0 <= i < |cs| && r[k] in SkillsOf(cs[i])
    ensures forall k, l :: 0 <= k < l < |r| ==> IndexOf(SkillPieces(cs), r[k]) < IndexOf(SkillPieces(cs), r[l])
  {
    var pieces := SkillPieces(cs);
    var r := Dedupe(pieces);
    forall k | 0 <= k < |r| ensures IsSkillTag(r[k]) && exists i :: 0 <= i < |cs| && r[k] in SkillsOf(cs[i]) {
      PieceIsTag(cs, r[k]);
    }
    forall i, s | 0 <= i < |cs| && s in SkillsOf(cs[i]) ensures s in r {
      var m := IndexOf(pieces, s);
    }
    r
  }

  // --- Pagination

  /** `Math.ceil(n / 9)`. */
  function TotalPages(n: nat): (t: nat)
    ensures n <= t * ItemsPerPage
    ensures t == 0 || (t - 1) * ItemsPerPage < n
  {
    (n + ItemsPerPage - 1) / ItemsPerPage
  }

  /** The strip is drawn inside the branch that shows cards, and only when there is more than one
      page. */
  predicate StripDrawn<T>(list: seq<T>, page: int) {
    PageOf(list, page) != [] && TotalPages(|list|) > 1
  }

  /** There is more than one page exactly when the list is longer than one page; the strip is drawn
      exactly when, in addition, the current page lies in range. */
  lemma PaginationShown<T>(list: seq<T>, page: int)
    requires page >= 1
    ensures TotalPages(|list|) > 1 <==> |list| > ItemsPerPage
    ensures StripDrawn(list, page) <==> page <= TotalPages(|list|) && |list| > ItemsPerPage
  {
    if page <= TotalPages(|list|) {
      PageInRangeNonEmpty(list, page);
    } else {
      PastLastPage(list, page);
    }
  }

  /** `slice((page - 1) * 9, page * 9)`. */
  function PageOf<T>(list: seq<T>, page: int): seq<T> {
    JsSlice(list, (page - 1) * ItemsPerPage, page * ItemsPerPage)
  }

  function MinNat(a: nat, b: nat): nat { if a <= b then a else b }

  /** Page `p` (counting from 1) is the stretch of the list from item `(p - 1) * 9`, cut at the end
      of the list: at most nine items, in order. */
  lemma PageContents<T>(list: seq<T>, page: int)
    requires page >= 1
    ensures PageOf(list, page) == list[MinNat((page - 1) * ItemsPerPage, |list|)..MinNat(page * ItemsPerPage, |list|)]
    ensures |PageOf(list, page)| <= ItemsPerPage
  {
  }

  /** A page past the last one is empty. */
  lemma PastLastPage<T>(list: seq<T>, page: int)
    requires page > TotalPages(|list|)
    ensures PageOf(list, page) == []
  {
    PageContents(list, page);
  }

  /** The number of cards on a page is the count the strip reports as "Showing x to y". */
  lemma PageMatchesShowing<T>(list: seq<T>, page: int)
    requires 1 <= page <= TotalPages(|list|)
    ensures |PageOf(list, page)| ==
      Pagination.EndItem(page, ItemsPerPage, |list|) - Pagination.StartItem(page, ItemsPerPage) + 1
  {
    PageContents(list, page);
  }

  /** The pages `1..count`, one after another. */
  function Pages<T>(list: seq<T>, count: nat): seq<T> {
    if count == 0 then [] else Pages(list, count - 1) + PageOf(list, count)
  }

  /** Paging loses and repeats nothing: the pages in order make up the whole list. */
  lemma {:induction false} PagesCoverList<T>(list: seq<T>)
    ensures Pages(list, TotalPages(|list|)) == list
  {
    PagesPrefix(list, TotalPages(|list|));
  }

  lemma {:induction false} PagesPrefix<T>(list: seq<T>, count: nat)
    ensures Pages(list, count) == list[..MinNat(count * ItemsPerPage, |list|)]
  {
    if count > 0 {
      PagesPrefix(list, count - 1);
      PageContents(list, count);
      var a, b := MinNat((count - 1) * ItemsPerPage, |list|), MinNat(count * ItemsPerPage, |list|);
      assert list[..a] + list[a..b] == list[..b];
    }
  }

  /** A page in range holds at least one card. */
  lemma PageInRangeNonEmpty<T>(list: seq<T>, page: int)
    requires 1 <= page <= TotalPages(|list|)
    ensures PageOf(list, page) != []
  {
    var t := TotalPages(|list|);
    assert (page - 1) * ItemsPerPage <= (t - 1) * ItemsPerPage;
    PageContents(list, page);
  }

  // --- The current page after a filter change

  /** The current page is kept when a filter narrows the list. From a page past the first, a
      narrower list of at most one page shows no card although it has matches, and the strip
      that would lead back is not drawn. */
  lemma StalePageHidesMatches<T>(before: seq<T>, after: seq<T>, page: int)
    requires 2 <= page <= TotalPages(|before|)
    requires 1 <= |after| <= ItemsPerPage
    ensures PageOf(before, page) != []
    ensures after != [] && PageOf(after, page) == []
    ensures !(TotalPages(|after|) > 1) && !StripDrawn(after, page)
  {
    PageInRangeNonEmpty(before, page);
    PastLastPage(after, page);
  }

  /** The current page moved back into `1..TotalPages` (page 1 when the list is empty). */
  function VisiblePage(page: int, n: nat): (p: int)
    ensures 1 <= p
    ensures n > 0 ==> p <= TotalPages(n)
    ensures 1 <= page <= TotalPages(n) ==> p == page
  {
    if page < 1 then 1
    else if page > TotalPages(n) then (if TotalPages(n) == 0 then 1 else TotalPages(n))
    else page
  }

  /** The cards shown for the current page once it is moved back into range. */
  function ShownCards<T>(list: seq<T>, page: int): seq<T> {
    PageOf(list, VisiblePage(page, |list|))
  }

  /** With the page kept in range, cards are shown exactly when some candidate matches, and the
      strip is drawn whenever there is more than one page to move between. */
  lemma ShownCardsNonEmpty<T>(list: seq<T>, page: int)
    ensures ShownCards(list, page) != [] <==> list != []
    ensures 1 <= page <= TotalPages(|list|) ==> ShownCards(list, page) == PageOf(list, page)
    ensures StripDrawn(list, VisiblePage(page, |list|)) <==> |list| > ItemsPerPage
  {
    var p := VisiblePage(page, |list|);
    PaginationShown(list, p);
    if list != [] {
      PageInRangeNonEmpty(list, p);
    } else {
      PageContents(list, p);
    }
  }
}
