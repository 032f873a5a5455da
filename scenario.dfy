/** The hire walk-through on a fresh store: one open position, one looking candidate and a
    referral between them; marking the referral Hired with a fee places the candidate and moves
    the dashboard from (1, 1, 1, 0) to (1, 0, 1, 25000). */
module Scenario {
  import opened Wrappers
  import opened Schema
  import opened Storage

  const Monthly := MonthlyChange(3, 5, 12, 3200)

  lemma OneOpen(m: map<int, Position>, p: Position)
    requires m == map[1 := p]
    ensures |set k | k in m && IsOpen(m[k])| == if IsOpen(p) then 1 else 0
  {
    var s := set k | k in m && IsOpen(m[k]);
    if IsOpen(p) { assert s == {1}; } else { assert s == {}; }
  }

  lemma OneLooking(m: map<int, Candidate>, c: Candidate)
    requires m == map[1 := c]
    ensures |set k | k in m && IsLooking(m[k])| == if IsLooking(c) then 1 else 0
  {
    var s := set k | k in m && IsLooking(m[k]);
    if IsLooking(c) { assert s == {1}; } else { assert s == {}; }
  }

  lemma OneFee(m: map<int, Referral>, r: Referral)
    requires m == map[1 := r]
    ensures FeeTotal(InIdOrder(m, 2)) == FeeOf(r)
  {
    assert KeysFrom(m, 2, 2) == [];
    assert KeysFrom(m, 1, 2) == [1];
    assert InIdOrder(m, 2) == [r];
  }

  /** The dashboard of a store holding one record in each table. */
  lemma DashboardOfOne(store: MemStorage, p: Position, c: Candidate, r: Referral)
    requires store.Valid()
    requires store.positions == map[1 := p] && store.candidates == map[1 := c]
    requires store.referrals == map[1 := r] && store.referralsId == 2
    ensures store.GetDashboardStats() ==
      DashboardStats(if IsOpen(p) then 1 else 0, if IsLooking(c) then 1 else 0, 1, FeeOf(r), Monthly)
  {
    OneOpen(store.positions, p);
    OneLooking(store.candidates, c);
    OneFee(store.referrals, r);
  }

  /** A fresh store with one open position, one looking candidate and a referral between them. */
  method SetUp(now: int) returns (store: MemStorage, p: Position, c: Candidate, r: Referral)
    ensures fresh(store) && store.Valid()
    ensures store.positions == map[1 := p] && store.candidates == map[1 := c]
    ensures store.referrals == map[1 := r] && store.referralsId == 2
    ensures IsOpen(p) && IsLooking(c) && c.id == 1
    ensures r.id == 1 && r.candidateId == 1 && r.status == "Referred" && FeeOf(r) == 0
    ensures store.GetDashboardStats() == DashboardStats(1, 1, 1, 0, Monthly)
  {
    store := new MemStorage();
    p := store.CreatePosition(
      PositionInput("Engineer", "TechCorp", "Tel Aviv", "", 25000, 35000, "Open", None), now);
    c := store.CreateCandidate(
      CandidateInput("Sarah Johnson", "sarah@example.com", "", "Developer", "React", 5, None, None,
        "immediate", "Looking"), now);
    r := store.CreateReferral(
      ReferralInput(c.id, p.id, None, "Referred", None, None, None, None, None), now);
    DashboardOfOne(store, p, c, r);
  }

  /** The status change the referrals table sends when a referral is marked Hired with a fee. */
  function HirePatch(fee: int): ReferralPatch {
    ReferralPatch(None, None, None, Some("Hired"), None, Some(Some(fee)), None, None, None)
  }

  /** Marking the one referral Hired with a non-zero fee places the one candidate, books the fee
      and leaves the position alone. */
  method MarkHired(store: MemStorage, p: Position, c: Candidate, r: Referral, fee: int, now: int)
    requires store.Valid()
    requires store.positions == map[1 := p] && store.candidates == map[1 := c]
    requires store.referrals == map[1 := r] && store.referralsId == 2
    requires r.id == 1 && r.candidateId == 1 && r.status != "Hired" && fee != 0
    modifies store
    ensures store.Valid()
    ensures store.positions == map[1 := p] && store.candidates == map[1 := c.(status := "Placed")]
    ensures store.referrals == map[1 := MergeReferral(r, HirePatch(fee))] && store.referralsId == 2
    ensures store.GetDashboardStats() ==
      DashboardStats(if IsOpen(p) then 1 else 0, 0, 1, fee, Monthly)
  {
    assert CascadeFires(r, HirePatch(fee), store.candidates);
    assert store.candidates[1].id == 1;
    var u := store.UpdateReferral(r.id, HirePatch(fee), now);
    DashboardOfOne(store, p, c.(status := "Placed"), MergeReferral(r, HirePatch(fee)));
  }

  method HireWalkThrough(now: int) returns (before: DashboardStats, after: DashboardStats, placed: Option<Candidate>)
    ensures before == DashboardStats(1, 1, 1, 0, Monthly)
    ensures after == DashboardStats(1, 0, 1, 25000, Monthly)
    ensures placed.Some? && placed.value.status == "Placed"
  {
    var store, p, c, r := SetUp(now);
    before := store.GetDashboardStats();
    MarkHired(store, p, c, r, 25000, now);
    after := store.GetDashboardStats();
    placed := store.GetCandidate(1);
  }
}
