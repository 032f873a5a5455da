/** The in-memory repository `MemStorage` (server/storage.ts): five keyed tables, five
    auto-increment counters and the activity log, with the referential guard on deletes, the
    status-change audit entries and the referral-to-Hired cascade. */
module Storage {
  import opened Wrappers
  import opened Seqs
  import opened Text
  import opened Schema

  // ---------------------------------------------------------------------------------------------
  // Partial-field merge: `{ ...existing, ...patch }`

  function MergePosition(p: Position, patch: PositionPatch): (r: Position)
    ensures r.id == p.id
  {
    Position(p.id, patch.title.GetOr(p.title), patch.company.GetOr(p.company),
      patch.location.GetOr(p.location), patch.description.GetOr(p.description),
      patch.salaryMin.GetOr(p.salaryMin), patch.salaryMax.GetOr(p.salaryMax),
      patch.status.GetOr(p.status), patch.dateAdded.GetOr(p.dateAdded))
  }

  /** Every field the payload supplies already has that value in `p`. */
  predicate PositionAgrees(p: Position, patch: PositionPatch) {
    && (patch.title.Some? ==> patch.title.value == p.title)
    && (patch.company.Some? ==> patch.company.value == p.company)
    && (patch.location.Some? ==> patch.location.value == p.location)
    && (patch.description.Some? ==> patch.description.value == p.description)
    && (patch.salaryMin.Some? ==> patch.salaryMin.value == p.salaryMin)
    && (patch.salaryMax.Some? ==> patch.salaryMax.value == p.salaryMax)
    && (patch.status.Some? ==> patch.status.value == p.status)
    && (patch.dateAdded.Some? ==> patch.dateAdded.value == p.dateAdded)
  }

  /** The merge takes every supplied field, and it leaves the record as it was exactly when the
      record already agrees with the payload. */
  lemma MergePositionExact(p: Position, patch: PositionPatch)
    ensures PositionAgrees(MergePosition(p, patch), patch)
    ensures MergePosition(p, patch) == p <==> PositionAgrees(p, patch)
  {
  }

  function MergeCandidate(c: Candidate, patch: CandidatePatch): (r: Candidate)
    ensures r.id == c.id
  {
    Candidate(c.id, patch.fullName.GetOr(c.fullName), patch.email.GetOr(c.email),
      patch.phone.GetOr(c.phone), patch.currentRole.GetOr(c.currentRole),
      patch.skills.GetOr(c.skills), patch.experience.GetOr(c.experience),
      patch.salaryExpectation.GetOr(c.salaryExpectation), patch.notes.GetOr(c.notes),
      patch.availability.GetOr(c.availability), patch.status.GetOr(c.status))
  }

  predicate CandidateAgrees(c: Candidate, patch: CandidatePatch) {
    && (patch.fullName.Some? ==> patch.fullName.value == c.fullName)
    && (patch.email.Some? ==> patch.email.value == c.email)
    && (patch.phone.Some? ==> patch.phone.value == c.phone)
    && (patch.currentRole.Some? ==> patch.currentRole.value == c.currentRole)
    && (patch.skills.Some? ==> patch.skills.value == c.skills)
    && (patch.experience.Some? ==> patch.experience.value == c.experience)
    && (patch.salaryExpectation.Some? ==> patch.salaryExpectation.value == c.salaryExpectation)
    && (patch.notes.Some? ==> patch.notes.value == c.notes)
    && (patch.availability.Some? ==> patch.availability.value == c.availability)
    && (patch.status.Some? ==> patch.status.value == c.status)
  }

  lemma MergeCandidateExact(c: Candidate, patch: CandidatePatch)
    ensures CandidateAgrees(MergeCandidate(c, patch), patch)
    ensures MergeCandidate(c, patch) == c <==> CandidateAgrees(c, patch)
  {
  }

  function MergeReferral(r: Referral, patch: ReferralPatch): (m: Referral)
    ensures m.id == r.id
  {
    Referral(r.id, patch.candidateId.GetOr(r.candidateId), patch.positionId.GetOr(r.positionId),
      patch.referralDate.GetOr(r.referralDate), patch.status.GetOr(r.status),
      patch.notes.GetOr(r.notes), patch.feeEarned.GetOr(r.feeEarned),
      patch.mode.GetOr(r.mode), patch.feeType.GetOr(r.feeType),
      patch.feeMonths.GetOr(r.feeMonths))
  }

  predicate ReferralAgrees(r: Referral, patch: ReferralPatch) {
    && (patch.candidateId.Some? ==> patch.candidateId.value == r.candidateId)
    && (patch.positionId.Some? ==> patch.positionId.value == r.positionId)
    && (patch.referralDate.Some? ==> patch.referralDate.value == r.referralDate)
    && (patch.status.Some? ==> patch.status.value == r.status)
    && (patch.notes.Some? ==> patch.notes.value == r.notes)
    && (patch.feeEarned.Some? ==> patch.feeEarned.value == r.feeEarned)
    && (patch.mode.Some? ==> patch.mode.value == r.mode)
    && (patch.feeType.Some? ==> patch.feeType.value == r.feeType)
    && (patch.feeMonths.Some? ==> patch.feeMonths.value == r.feeMonths)
  }

  lemma MergeReferralExact(r: Referral, patch: ReferralPatch)
    ensures ReferralAgrees(MergeReferral(r, patch), patch)
    ensures MergeReferral(r, patch) == r <==> ReferralAgrees(r, patch)
  {
  }

  // ---------------------------------------------------------------------------------------------
  // Creation defaults

  /** `createReferral`'s record: the input with the id, a `referralDate` defaulting to now,
      `mode || "Placement"`, `feeType || "OneTime"` and `feeMonths || null`. */
  function NewReferral(id: int, input: ReferralInput, now: int): (r: Referral)
    ensures r.id == id && r.candidateId == input.candidateId && r.positionId == input.positionId
    ensures r.status == input.status && r.notes == input.notes && r.feeEarned == input.feeEarned
    ensures r.referralDate == (if input.referralDate.Some? then input.referralDate.value else now)
    ensures r.mode == (if TruthyString(input.mode) then input.mode.value else "Placement")
    ensures r.feeType == (if TruthyString(input.feeType) then input.feeType.value else "OneTime")
    ensures r.feeMonths.Some? <==> TruthyNumber(input.feeMonths)
    ensures r.feeMonths.Some? ==> r.feeMonths == input.feeMonths
  {
    Referral(id, input.candidateId, input.positionId, input.referralDate.GetOr(now), input.status,
      input.notes, input.feeEarned,
      if TruthyString(input.mode) then input.mode.value else "Placement",
      if TruthyString(input.feeType) then input.feeType.value else "OneTime",
      if TruthyNumber(input.feeMonths) then input.feeMonths else None)
  }

  // ---------------------------------------------------------------------------------------------
  // Guards and the cascade condition

  /** The condition under which an update appends a `*_updated` entry: the payload carries a
      non-empty status that differs from the stored one. */
  predicate StatusChangeLogged(newStatus: Option<string>, current: string) {
    TruthyString(newStatus) && newStatus.value != current
  }

  predicate ReferencesPosition(referrals: map<int, Referral>, id: int) {
    exists k :: k in referrals && referrals[k].positionId == id
  }

  predicate ReferencesCandidate(referrals: map<int, Referral>, id: int) {
    exists k :: k in referrals && referrals[k].candidateId == id
  }

  /** `updateReferral` runs the hire cascade: the payload's status is "Hired", the stored status
      was not, the payload's fee is truthy, and the referral's (stored) candidate exists. */
  predicate CascadeFires(existing: Referral, patch: ReferralPatch, candidates: map<int, Candidate>) {
    && patch.status == Some("Hired")
    && existing.status != "Hired"
    && patch.feeEarned.Some? && TruthyNumber(patch.feeEarned.value)
    && existing.candidateId in candidates
  }

  // ---------------------------------------------------------------------------------------------
  // Audit entries

  function PositionAdded(id: int, p: PositionInput, now: int): ActivityInput {
    ActivityInput("position_added", "Added a new position: " + p.title + " at " + p.company,
      Some(now), Some(id), Some("position"))
  }

  function PositionUpdated(p: Position, status: string, now: int): ActivityInput {
    ActivityInput("position_updated",
      "Updated position status: " + p.title + " at " + p.company + " is now " + status,
      Some(now), Some(p.id), Some("position"))
  }

  function PositionDeleted(p: Position, now: int): ActivityInput {
    ActivityInput("position_deleted", "Deleted position: " + p.title + " at " + p.company,
      Some(now), None, Some("position"))
  }

  function CandidateAdded(id: int, c: CandidateInput, now: int): ActivityInput {
    ActivityInput("candidate_added", "Added a new candidate: " + c.fullName,
      Some(now), Some(id), Some("candidate"))
  }

  function CandidateUpdated(c: Candidate, status: string, now: int): ActivityInput {
    ActivityInput("candidate_updated", "Updated candidate status: " + c.fullName + " is now " + status,
      Some(now), Some(c.id), Some("candidate"))
  }

  function CandidateDeleted(c: Candidate, now: int): ActivityInput {
    ActivityInput("candidate_deleted", "Deleted candidate: " + c.fullName,
      Some(now), None, Some("candidate"))
  }

  function ReferralCreated(id: int, c: Candidate, p: Position, now: int): ActivityInput {
    ActivityInput("referral_created",
      "Made a new referral: " + c.fullName + " for " + p.title + " at " + p.company,
      Some(now), Some(id), Some("referral"))
  }

  /** The fee entry; the amount is printed as JavaScript prints a number, after the shekel sign. */
  function ReferralFeeReceived(id: int, fee: int, c: Candidate, now: int): ActivityInput {
    ActivityInput("referral_updated",
      "Received referral fee: \U{20AA}" + IntToString(fee) + " for " + c.fullName,
      Some(now), Some(id), Some("referral"))
  }

  function ReferralDeleted(c: Candidate, p: Position, now: int): ActivityInput {
    ActivityInput("referral_deleted",
      "Deleted referral: " + c.fullName + " for " + p.title + " at " + p.company,
      Some(now), None, Some("referral"))
  }

  // ---------------------------------------------------------------------------------------------
  // The activity log

  /** `createActivity`'s record: the entry with its id and a timestamp defaulting to now. */
  function Stamp(a: ActivityInput, id: int, now: int): Activity {
    Activity(id, a.kind, a.description, a.timestamp.GetOr(now), a.relatedId, a.relatedType)
  }

  /** The log after `createActivity` has run once per entry, ids counting up from `next`. */
  function Appended(log: map<int, Activity>, next: int, entries: seq<ActivityInput>, now: int): map<int, Activity>
    decreases |entries|
  {
    if entries == [] then log
    else Appended(log[next := Stamp(entries[0], next, now)], next + 1, entries[1..], now)
  }

  /** The log is append-only: appending keeps every earlier entry, and adds exactly the new
      entries under the ids `next`, `next + 1`, ... */
  lemma {:induction false} AppendedKeepsLog(log: map<int, Activity>, next: int, entries: seq<ActivityInput>, now: int)
    requires forall k :: k in log ==> k < next
    ensures var r := Appended(log, next, entries, now);
      && (forall k :: k in r <==> k in log || next <= k < next + |entries|)
      && (forall k :: k in log ==> r[k] == log[k])
      && (forall i :: 0 <= i < |entries| ==> r[next + i] == Stamp(entries[i], next + i, now))
    decreases |entries|
  {
    if entries != [] {
      var log' := log[next := Stamp(entries[0], next, now)];
      AppendedKeepsLog(log', next + 1, entries[1..], now);
      var r := Appended(log, next, entries, now);
      assert r == Appended(log', next + 1, entries[1..], now);
      forall i | 0 <= i < |entries| ensures r[next + i] == Stamp(entries[i], next + i, now) {
        if i > 0 {
          assert entries[1..][i - 1] == entries[i];
          assert r[(next + 1) + (i - 1)] == Stamp(entries[1..][i - 1], (next + 1) + (i - 1), now);
        }
      }
    }
  }

  /** Appending two batches one after the other is appending them together. */
  lemma {:induction false} AppendedConcat(log: map<int, Activity>, next: int, a: seq<ActivityInput>, b: seq<ActivityInput>, now: int)
    ensures Appended(Appended(log, next, a, now), next + |a|, b, now) == Appended(log, next, a + b, now)
    decreases |a|
  {
    if a == [] {
      assert a + b == b;
    } else {
      assert (a + b)[0] == a[0];
      assert (a + b)[1..] == a[1..] + b;
      AppendedConcat(log[next := Stamp(a[0], next, now)], next + 1, a[1..], b, now);
    }
  }

  /** Entries ordered newest first. */
  ghost predicate NewestFirst(s: seq<Activity>) {
    forall i, j :: 0 <= i < j < |s| ==> s[i].timestamp >= s[j].timestamp
  }

  /** Places `a` before the first entry that is not newer than it (so a stable sort results). */
  function InsertNewest(a: Activity, s: seq<Activity>): (r: seq<Activity>)
    ensures multiset(r) == multiset(s) + multiset{a}
    ensures |r| == |s| + 1 && (r[0] == a || (s != [] && r[0] == s[0]))
  {
    if s == [] || s[0].timestamp <= a.timestamp then [a] + s
    else
      assert s == [s[0]] + s[1..];
      [s[0]] + InsertNewest(a, s[1..])
  }

  /** Inserting into a newest-first list keeps it newest first. */
  lemma {:induction false} InsertNewestSorted(a: Activity, s: seq<Activity>)
    requires NewestFirst(s)
    ensures NewestFirst(InsertNewest(a, s))
  {
    if s != [] && s[0].timestamp > a.timestamp {
      var rest := InsertNewest(a, s[1..]);
      InsertNewestSorted(a, s[1..]);
      assert rest[0].timestamp <= s[0].timestamp;
      var r := [s[0]] + rest;
      assert InsertNewest(a, s) == r;
      forall i, j | 0 <= i < j < |r| ensures r[i].timestamp >= r[j].timestamp {
        if i > 0 {
          assert r[i] == rest[i - 1] && r[j] == rest[j - 1];
        } else {
          assert rest[0].timestamp >= rest[j - 1].timestamp || j == 1;
        }
      }
    }
  }

  /** `sort((a, b) => b.timestamp - a.timestamp)`. */
  function SortNewestFirst(s: seq<Activity>): (r: seq<Activity>)
    ensures NewestFirst(r)
    ensures multiset(r) == multiset(s)
  {
    if s == [] then []
    else
      assert s == [s[0]] + s[1..];
      InsertNewestSorted(s[0], SortNewestFirst(s[1..]));
      InsertNewest(s[0], SortNewestFirst(s[1..]))
  }

  /** Cutting a newest-first list after `n` entries keeps entries at least as new as any it drops. */
  lemma PrefixKeepsNewest(log: seq<Activity>, sorted: seq<Activity>, n: nat)
    requires NewestFirst(sorted) && multiset(sorted) == multiset(log) && n <= |sorted|
    ensures NewestFirst(sorted[..n])
    ensures multiset(sorted[..n]) <= multiset(log)
    ensures forall i, j :: 0 <= i < n && 0 <= j < |log| && log[j] !in sorted[..n] ==>
      log[j].timestamp <= sorted[i].timestamp
  {
    assert sorted == sorted[..n] + sorted[n..];
    assert multiset(sorted) == multiset(sorted[..n]) + multiset(sorted[n..]);
    assert forall t :: 0 <= t < n ==> sorted[..n][t] == sorted[t];
    forall i, j | 0 <= i < n && 0 <= j < |log| && log[j] !in sorted[..n]
      ensures log[j].timestamp <= sorted[i].timestamp
    {
      assert log[j] in multiset(sorted);
      var k :| 0 <= k < |sorted| && sorted[k] == log[j];
    }
  }

  /** `slice(0, end)` is the prefix up to the clamped end. */
  lemma SliceFromStart<T>(s: seq<T>, end: int)
    ensures JsSlice(s, 0, end) == s[..SliceIndex(end, |s|)]
  {
  }

  /** `getAllActivities(limit)`: the log newest first, cut to `slice(0, limit)` when `limit` is truthy. */
  function Feed(log: seq<Activity>, limit: Option<int>): (r: seq<Activity>)
    ensures NewestFirst(r)
    ensures multiset(r) <= multiset(log)
    ensures !TruthyNumber(limit) ==> multiset(r) == multiset(log)
    ensures TruthyNumber(limit) && limit.value > 0 ==>
      |r| == (if limit.value < |log| then limit.value else |log|)
    ensures TruthyNumber(limit) && limit.value < 0 ==>
      |r| == (if |log| + limit.value > 0 then |log| + limit.value else 0)
    ensures forall i, j :: 0 <= i < |r| && 0 <= j < |log| && log[j] !in r ==>
      log[j].timestamp <= r[i].timestamp
  {
    var sorted := SortNewestFirst(log);
    assert |sorted| == |multiset(log)| == |log|;
    if TruthyNumber(limit) then
      SliceFromStart(sorted, limit.value);
      PrefixKeepsNewest(log, sorted, SliceIndex(limit.value, |sorted|));
      JsSlice(sorted, 0, limit.value)
    else
      assert sorted[..|sorted|] == sorted;
      PrefixKeepsNewest(log, sorted, |sorted|);
      sorted
  }

  // ---------------------------------------------------------------------------------------------
  // Tables in insertion order. A JavaScript `Map` iterates in insertion order; ids are handed
  // out in increasing order and never re-used, so insertion order is increasing id order.

  /** The keys of `m` in `lo..hi-1`, increasing. */
  function KeysFrom<T>(m: map<int, T>, lo: int, hi: int): (ks: seq<int>)
    ensures forall i :: 0 <= i < |ks| ==> ks[i] in m && lo <= ks[i] < hi
    ensures forall i, j :: 0 <= i < j < |ks| ==> ks[i] < ks[j]
    ensures forall k :: k in m && lo <= k < hi ==> k in ks
    decreases hi - lo
  {
    if lo >= hi then []
    else if lo in m then [lo] + KeysFrom(m, lo + 1, hi)
    else KeysFrom(m, lo + 1, hi)
  }

  /** Only the key set matters to the key order. */
  lemma {:induction false} KeysFromSameKeys<T>(m: map<int, T>, m': map<int, T>, lo: int, hi: int)
    requires m.Keys == m'.Keys
    ensures KeysFrom(m, lo, hi) == KeysFrom(m', lo, hi)
    decreases hi - lo
  {
    if lo < hi {
      assert lo in m <==> lo in m';
      KeysFromSameKeys(m, m', lo + 1, hi);
    }
  }

  function ValuesAt<T>(m: map<int, T>, ks: seq<int>): (r: seq<T>)
    requires forall i :: 0 <= i < |ks| ==> ks[i] in m
    ensures |r| == |ks|
    ensures forall i :: 0 <= i < |ks| ==> r[i] == m[ks[i]]
  {
    if ks == [] then [] else [m[ks[0]]] + ValuesAt(m, ks[1..])
  }

  /** `KeysFrom` lists each key of `m` in `lo..hi-1` once. */
  lemma {:induction false} KeysFromCount<T>(m: map<int, T>, lo: int, hi: int)
    ensures |KeysFrom(m, lo, hi)| == |KeysBetween(m, lo, hi)|
    decreases hi - lo
  {
    if lo >= hi {
      assert KeysBetween(m, lo, hi) == {};
    } else {
      KeysFromCount(m, lo + 1, hi);
      KeysBetweenStep(m, lo, hi);
    }
  }

  ghost function KeysBetween<T>(m: map<int, T>, lo: int, hi: int): set<int> {
    set k | k in m && lo <= k < hi
  }

  lemma KeysBetweenStep<T>(m: map<int, T>, lo: int, hi: int)
    requires lo < hi
    ensures |KeysBetween(m, lo, hi)| == |KeysBetween(m, lo + 1, hi)| + (if lo in m then 1 else 0)
  {
    var s, t := KeysBetween(m, lo, hi), KeysBetween(m, lo + 1, hi);
    assert lo !in t;
    if lo in m {
      assert s == t + {lo};
    } else {
      assert s == t;
    }
  }

  /** `Array.from(m.values())` for a table whose keys lie in `1..next-1`. */
  function InIdOrder<T>(m: map<int, T>, next: int): seq<T> {
    ValuesAt(m, KeysFrom(m, 1, next))
  }

  /** Every record of the table sits under its own id, below `next`. */
  ghost predicate Keyed<T>(m: map<int, T>, next: int, id: T -> int) {
    forall k :: k in m ==> 1 <= k < next && id(m[k]) == k
  }

  /** A keyed table lists as many records as it holds. */
  lemma InIdOrderLength<T>(m: map<int, T>, next: int)
    requires forall k :: k in m ==> 1 <= k < next
    ensures |InIdOrder(m, next)| == |m|
  {
    KeysFromCount(m, 1, next);
    assert KeysBetween(m, 1, next) == m.Keys;
  }

  /** Over a keyed table, `Array.from(m.values())` lists every record once, in increasing id order. */
  lemma InIdOrderLists<T>(m: map<int, T>, next: int, id: T -> int)
    requires Keyed(m, next, id)
    ensures var r := InIdOrder(m, next);
      && (forall i :: 0 <= i < |r| ==> id(r[i]) in m && m[id(r[i])] == r[i])
      && (forall i, j :: 0 <= i < j < |r| ==> id(r[i]) < id(r[j]))
      && (forall k :: k in m ==> m[k] in r)
  {
    var ks := KeysFrom(m, 1, next);
    var r := ValuesAt(m, ks);
    forall k | k in m ensures m[k] in r {
      var i :| 0 <= i < |ks| && ks[i] == k;
      assert r[i] == m[k];
    }
  }

  /** The keys among `ks` whose value satisfies `p`. */
  ghost function Matching<T>(m: map<int, T>, ks: seq<int>, p: T -> bool): set<int> {
    set k | k in ks && k in m && p(m[k])
  }

  lemma MatchingCons<T>(m: map<int, T>, x: int, rest: seq<int>, p: T -> bool)
    requires x in m
    ensures Matching(m, [x] + rest, p) == (if p(m[x]) then {x} else {}) + Matching(m, rest, p)
  {
    var ks := [x] + rest;
    forall k | k in Matching(m, ks, p) ensures k in (if p(m[x]) then {x} else {}) + Matching(m, rest, p) {
      if k != x {
        var t :| 0 <= t < |ks| && ks[t] == k;
        assert rest[t - 1] == k;
      }
    }
    forall k | k in Matching(m, rest, p) ensures k in Matching(m, ks, p) {
      var t :| 0 <= t < |rest| && rest[t] == k;
      assert ks[t + 1] == k;
    }
  }

  lemma HeadNotInTail(ks: seq<int>)
    requires |ks| >= 1
    requires forall i, j :: 0 <= i < j < |ks| ==> ks[i] != ks[j]
    ensures ks[0] !in ks[1..]
  {
    forall t | 0 <= t < |ks| - 1 ensures ks[1..][t] != ks[0] {
      assert ks[1..][t] == ks[t + 1];
    }
  }

  /** `filter(p).length` over the values in key order counts the keys whose value satisfies `p`. */
  lemma {:induction false} CountMatching<T>(m: map<int, T>, ks: seq<int>, p: T -> bool)
    requires forall i :: 0 <= i < |ks| ==> ks[i] in m
    requires forall i, j :: 0 <= i < j < |ks| ==> ks[i] != ks[j]
    ensures |Filter(ValuesAt(m, ks), p)| == |Matching(m, ks, p)|
  {
    if ks == [] {
      assert Matching(m, ks, p) == {};
    } else {
      var rest := ks[1..];
      assert ks == [ks[0]] + rest;
      CountMatching(m, rest, p);
      var v := m[ks[0]];
      assert ValuesAt(m, ks) == [v] + ValuesAt(m, rest);
      FilterConcat([v], ValuesAt(m, rest), p);
      assert Filter([v], p) == if p(v) then [v] else [];
      HeadNotInTail(ks);
      MatchingCons(m, ks[0], rest, p);
    }
  }

  /** Over a table whose keys lie in `1..next-1`, `filter(p).length` counts the records satisfying `p`. */
  lemma CountInIdOrder<T>(m: map<int, T>, next: int, p: T -> bool, s: set<int>)
    requires forall k :: k in m ==> 1 <= k < next
    requires forall k :: k in s <==> k in m && p(m[k])
    ensures |Filter(InIdOrder(m, next), p)| == |s|
  {
    var ks := KeysFrom(m, 1, next);
    CountMatching(m, ks, p);
    forall k | k in s ensures k in Matching(m, ks, p) {
      assert k in m && 1 <= k < next;
    }
    assert Matching(m, ks, p) == s;
  }

  predicate IsOpen(p: Position) {
    p.status == "Open"
  }

  predicate IsLooking(c: Candidate) {
    c.status == "Looking"
  }

  lemma CountOpen(m: map<int, Position>, next: int)
    requires forall k :: k in m ==> 1 <= k < next
    ensures |Filter(InIdOrder(m, next), IsOpen)| == |set k | k in m && IsOpen(m[k])|
  {
    CountInIdOrder(m, next, IsOpen, set k | k in m && IsOpen(m[k]));
  }


  lemma CountLooking(m: map<int, Candidate>, next: int)
    requires forall k :: k in m ==> 1 <= k < next
    ensures |Filter(InIdOrder(m, next), IsLooking)| == |set k | k in m && IsLooking(m[k])|
  {
    CountInIdOrder(m, next, IsLooking, set k | k in m && IsLooking(m[k]));
  }


  // ---------------------------------------------------------------------------------------------
  // Fees: `filter(r => r.status === "Hired" && r.feeEarned).reduce((s, r) => s + (r.feeEarned || 0), 0)`

  /** A referral whose fee counts: Hired with a truthy fee. */
  predicate PaidHire(r: Referral) {
    r.status == "Hired" && TruthyNumber(r.feeEarned)
  }

  /** What one referral adds to the fee total. */
  function FeeOf(r: Referral): int {
    if PaidHire(r) then r.feeEarned.value else 0
  }

  function FeeTotal(rs: seq<Referral>): int {
    if rs == [] then 0 else FeeOf(rs[0]) + FeeTotal(rs[1..])
  }

  /** The reduce step over already-filtered referrals. */
  function SumFees(rs: seq<Referral>): int {
    if rs == [] then 0 else rs[0].feeEarned.GetOr(0) + SumFees(rs[1..])
  }

  /** The fee total is literally the filter-then-reduce the source writes. */
  lemma {:induction false} FeeTotalIsFilterReduce(rs: seq<Referral>)
    ensures FeeTotal(rs) == SumFees(Filter(rs, PaidHire))
  {
    if rs != [] {
      FeeTotalIsFilterReduce(rs[1..]);
      if PaidHire(rs[0]) {
        assert Filter(rs, PaidHire) == [rs[0]] + Filter(rs[1..], PaidHire);
      }
    }
  }

  /** Replacing one referral changes the total by exactly the change in what it contributes;
      in particular a referral that is not Hired never moves the total. */
  lemma {:induction false} FeeTotalUpdate(rs: seq<Referral>, i: nat, r: Referral)
    requires i < |rs|
    ensures FeeTotal(rs[i := r]) == FeeTotal(rs) - FeeOf(rs[i]) + FeeOf(r)
  {
    if i == 0 {
      assert rs[i := r][1..] == rs[1..];
    } else {
      FeeTotalUpdate(rs[1..], i - 1, r);
      assert rs[i := r][1..] == rs[1..][i - 1 := r];
    }
  }

  lemma FeeTotalIgnoresUnpaid(rs: seq<Referral>, i: nat, fee: Option<int>)
    requires i < |rs| && rs[i].status != "Hired"
    ensures FeeTotal(rs[i := rs[i].(feeEarned := fee)]) == FeeTotal(rs)
  {
    FeeTotalUpdate(rs, i, rs[i].(feeEarned := fee));
  }

  lemma ValuesAtUpdate<T>(m: map<int, T>, ks: seq<int>, idx: nat, v: T)
    requires forall i :: 0 <= i < |ks| ==> ks[i] in m
    requires forall i, j :: 0 <= i < j < |ks| ==> ks[i] < ks[j]
    requires idx < |ks|
    ensures ValuesAt(m[ks[idx] := v], ks) == ValuesAt(m, ks)[idx := v]
  {
    var m' := m[ks[idx] := v];
    forall i | 0 <= i < |ks| ensures ValuesAt(m', ks)[i] == ValuesAt(m, ks)[idx := v][i] {
      if i < idx {
        assert ks[i] < ks[idx];
      } else if i > idx {
        assert ks[idx] < ks[i];
      }
    }
  }

  /** Storing `r` over the referral under key `k` moves the fee total of the table by exactly the
      change in what that one referral contributes. */
  lemma FeesAfterStore(m: map<int, Referral>, next: int, k: int, r: Referral)
    requires k in m && 1 <= k < next
    ensures FeeTotal(InIdOrder(m[k := r], next)) == FeeTotal(InIdOrder(m, next)) - FeeOf(m[k]) + FeeOf(r)
  {
    var ks := KeysFrom(m, 1, next);
    KeysFromSameKeys(m, m[k := r], 1, next);
    var idx :| 0 <= idx < |ks| && ks[idx] == k;
    ValuesAtUpdate(m, ks, idx, r);
    FeeTotalUpdate(ValuesAt(m, ks), idx, r);
  }

  /** The joined view; a referral whose candidate or position is gone joins with nothing. */
  function WithDetails(r: Referral, candidates: map<int, Candidate>, positions: map<int, Position>): ReferralWithDetails {
    ReferralWithDetails(r,
      if r.candidateId in candidates then Some(candidates[r.candidateId]) else None,
      if r.positionId in positions then Some(positions[r.positionId]) else None)
  }

  function WithDetailsAll(rs: seq<Referral>, candidates: map<int, Candidate>, positions: map<int, Position>): (r: seq<ReferralWithDetails>)
    ensures |r| == |rs|
    ensures forall i :: 0 <= i < |r| ==> r[i] == WithDetails(rs[i], candidates, positions)
  {
    seq(|rs|, i requires 0 <= i < |rs| => WithDetails(rs[i], candidates, positions))
  }

  /** `users.find(u => u.email.toLowerCase() === email.toLowerCase())`. */
  function FindByEmail(us: seq<User>, email: string): (r: Option<User>)
    ensures r.Some? ==> r.value in us && SameIgnoringCase(r.value.email, email)
    ensures r.None? ==> forall i :: 0 <= i < |us| ==> !SameIgnoringCase(us[i].email, email)
    ensures r.Some? ==>
      exists i :: 0 <= i < |us| && us[i] == r.value && forall j :: 0 <= j < i ==> !SameIgnoringCase(us[j].email, email)
  {
    if us == [] then None
    else if SameIgnoringCase(us[0].email, email) then Some(us[0])
    else
      var r := FindByEmail(us[1..], email);
      assert forall i :: 1 <= i < |us| ==> us[i] == us[1..][i - 1];
      r
  }

  /** Over a user list that holds every user of `m` in increasing id order, the user found is
      the one with the smallest id among those whose e-mail matches. */
  lemma FoundIsFirst(m: map<int, User>, us: seq<User>, email: string)
    requires forall i :: 0 <= i < |us| ==> us[i].id in m && m[us[i].id] == us[i]
    requires forall i, j :: 0 <= i < j < |us| ==> us[i].id < us[j].id
    requires forall k :: k in m ==> m[k] in us && m[k].id == k
    requires FindByEmail(us, email).Some?
    ensures var u := FindByEmail(us, email).value;
      && u.id in m && m[u.id] == u
      && forall k :: k in m && k < u.id ==> !SameIgnoringCase(m[k].email, email)
  {
    var u := FindByEmail(us, email).value;
    var i :| 0 <= i < |us| && us[i] == u && forall j :: 0 <= j < i ==> !SameIgnoringCase(us[j].email, email);
    assert forall a, b :: 0 <= a <= b < |us| ==> us[a].id <= us[b].id;
    forall k | k in m && k < u.id ensures !SameIgnoringCase(m[k].email, email) {
      var j :| 0 <= j < |us| && us[j] == m[k];
      assert us[j].id < us[i].id;
    }
  }

  lemma NoneFound(m: map<int, User>, us: seq<User>, email: string)
    requires forall k :: k in m ==> m[k] in us
    requires FindByEmail(us, email).None?
    ensures forall k :: k in m ==> !SameIgnoringCase(m[k].email, email)
  {
    forall k | k in m ensures !SameIgnoringCase(m[k].email, email) {
      var j :| 0 <= j < |us| && us[j] == m[k];
    }
  }

  // ---------------------------------------------------------------------------------------------
  // The store

  /** Everything in the store except the activity log. */
  datatype Tables = Tables(
    positions: map<int, Position>, candidates: map<int, Candidate>,
    referrals: map<int, Referral>, users: map<int, User>,
    positionsId: int, candidatesId: int, referralsId: int, usersId: int)

  class MemStorage {
    var positions: map<int, Position>
    var candidates: map<int, Candidate>
    var referrals: map<int, Referral>
    var activities: map<int, Activity>
    var users: map<int, User>

    var positionsId: int
    var candidatesId: int
    var referralsId: int
    var activitiesId: int
    var usersId: int

    /** Every record sits under its own id, and every id is below the counter that will hand
        out the next one, so the next id is always fresh. */
    ghost predicate Valid()
      reads this
    {
      && 1 <= positionsId && 1 <= candidatesId && 1 <= referralsId
      && 1 <= activitiesId && 1 <= usersId
      && (forall k :: k in positions ==> 1 <= k < positionsId && positions[k].id == k)
      && (forall k :: k in candidates ==> 1 <= k < candidatesId && candidates[k].id == k)
      && (forall k :: k in referrals ==> 1 <= k < referralsId && referrals[k].id == k)
      && (forall k :: k in activities ==> 1 <= k < activitiesId && activities[k].id == k)
      && (forall k :: k in users ==> 1 <= k < usersId && users[k].id == k)
    }

    ghost function Snapshot(): Tables
      reads this
    {
      Tables(positions, candidates, referrals, users, positionsId, candidatesId, referralsId, usersId)
    }

    /** The log grew by exactly `entries`, in order, and nothing in it was rewritten. */
    twostate predicate Logged(entries: seq<ActivityInput>, now: int)
      reads this
    {
      && activities == Appended(old(activities), old(activitiesId), entries, now)
      && activitiesId == old(activitiesId) + |entries|
    }

    /** An empty store; every counter starts at 1. */
    constructor ()
      ensures Valid()
      ensures positions == map[] && candidates == map[] && referrals == map[]
      ensures activities == map[] && users == map[]
      ensures positionsId == 1 && candidatesId == 1 && referralsId == 1
      ensures activitiesId == 1 && usersId == 1
    {
      positions, candidates, referrals, activities, users := map[], map[], map[], map[], map[];
      positionsId, candidatesId, referralsId, activitiesId, usersId := 1, 1, 1, 1, 1;
    }

    // --- Users

    function GetUserById(id: int): (r: Option<User>)
      reads this
      ensures r.Some? <==> id in users
      ensures r.Some? ==> r.value == users[id]
    {
      if id in users then Some(users[id]) else None
    }

    /** Every stored record once, in insertion (that is, increasing id) order. */
    function UserList(): (r: seq<User>)
      reads this
      requires Valid()
      ensures forall i :: 0 <= i < |r| ==> r[i].id in users && users[r[i].id] == r[i]
      ensures forall i, j :: 0 <= i < j < |r| ==> r[i].id < r[j].id
      ensures forall k :: k in users ==> users[k] in r
    {
      InIdOrderLists(users, usersId, (x: User) => x.id);
      InIdOrder(users, usersId)
    }

    /** The first user, in insertion order, whose e-mail equals `email` ignoring case. */
    function GetUserByEmail(email: string): (r: Option<User>)
      reads this
      requires Valid()
      ensures r.Some? ==> r.value.id in users && users[r.value.id] == r.value
      ensures r.Some? ==> SameIgnoringCase(r.value.email, email)
      ensures r.Some? ==> forall k :: k in users && k < r.value.id ==> !SameIgnoringCase(users[k].email, email)
      ensures r.None? ==> forall k :: k in users ==> !SameIgnoringCase(users[k].email, email)
    {
      var us := UserList();
      var r := FindByEmail(us, email);
      if r.Some? then
        FoundIsFirst(users, us, email);
        r
      else
        NoneFound(users, us, email);
        r
    }

    method CreateUser(input: UserInput, now: int) returns (r: User)
      requires Valid()
      modifies this
      ensures Valid()
      ensures r == User(old(usersId), input.name, input.email, input.password, input.provider,
        input.providerId, input.role, None, now)
      ensures r.id !in old(users)
      ensures Snapshot() == old(Snapshot()).(users := old(users)[r.id := r], usersId := old(usersId) + 1)
      ensures Logged([], now)
    {
      var id := usersId;
      usersId := usersId + 1;
      r := User(id, input.name, input.email, input.password, input.provider, input.providerId,
        input.role, None, now);
      users := users[id := r];
    }

    method UpdateUserLastLogin(id: int, now: int)
      requires Valid()
      modifies this
      ensures Valid()
      ensures id !in old(users) ==> unchanged(this)
      ensures id in old(users) ==>
        Snapshot() == old(Snapshot()).(users := old(users)[id := old(users)[id].(lastLogin := Some(now))])
      ensures Logged([], now)
    {
      if id in users {
        users := users[id := users[id].(lastLogin := Some(now))];
      }
    }

    // --- Activities

    method CreateActivity(a: ActivityInput, now: int) returns (r: Activity)
      requires Valid()
      modifies this
      ensures Valid()
      ensures r == Stamp(a, old(activitiesId), now) && r.id !in old(activities)
      ensures Snapshot() == old(Snapshot())
      ensures Logged([a], now)
    {
      var id := activitiesId;
      activitiesId := activitiesId + 1;
      r := Stamp(a, id, now);
      activities := activities[id := r];
    }

    /** Every stored record once, in insertion (that is, increasing id) order. */
    function ActivityLog(): (r: seq<Activity>)
      reads this
      requires Valid()
      ensures forall i :: 0 <= i < |r| ==> r[i].id in activities && activities[r[i].id] == r[i]
      ensures forall i, j :: 0 <= i < j < |r| ==> r[i].id < r[j].id
      ensures forall k :: k in activities ==> activities[k] in r
    {
      InIdOrderLists(activities, activitiesId, (x: Activity) => x.id);
      InIdOrder(activities, activitiesId)
    }

    /** The logged entries newest first, cut by a truthy `limit`; every entry shown is a logged one. */
    function GetAllActivities(limit: Option<int>): (r: seq<Activity>)
      reads this
      requires Valid()
      ensures r == Feed(ActivityLog(), limit)
      ensures NewestFirst(r)
      ensures forall i :: 0 <= i < |r| ==> r[i].id in activities && activities[r[i].id] == r[i]
      ensures !TruthyNumber(limit) ==> forall k :: k in activities ==> activities[k] in r
      ensures TruthyNumber(limit) && limit.value > 0 ==>
        |r| == (if limit.value < |activities| then limit.value else |activities|)
    {
      var log := ActivityLog();
      InIdOrderLength(activities, activitiesId);
      forall k | k in activities && !TruthyNumber(limit) ensures activities[k] in Feed(log, limit) {
        assert activities[k] in multiset(log);
      }
      var r := Feed(log, limit);
      forall i | 0 <= i < |r| ensures r[i].id in activities && activities[r[i].id] == r[i] {
        assert r[i] in multiset(log);
      }
      r
    }

    // --- Positions

    function GetPosition(id: int): (r: Option<Position>)
      reads this
      ensures r.Some? <==> id in positions
      ensures r.Some? ==> r.value == positions[id]
    {
      if id in positions then Some(positions[id]) else None
    }

    /** Every stored record once, in insertion (that is, increasing id) order. */
    function GetAllPositions(): (r: seq<Position>)
      reads this
      requires Valid()
      ensures forall i :: 0 <= i < |r| ==> r[i].id in positions && positions[r[i].id] == r[i]
      ensures forall i, j :: 0 <= i < j < |r| ==> r[i].id < r[j].id
      ensures forall k :: k in positions ==> positions[k] in r
    {
      InIdOrderLists(positions, positionsId, (x: Position) => x.id);
      InIdOrder(positions, positionsId)
    }

    method CreatePosition(input: PositionInput, now: int) returns (r: Position)
      requires Valid()
      modifies this
      ensures Valid()
      ensures r == Position(old(positionsId), input.title, input.company, input.location,
        input.description, input.salaryMin, input.salaryMax, input.status, input.dateAdded.GetOr(now))
      ensures r.id !in old(positions)
      ensures Snapshot() == old(Snapshot()).(positions := old(positions)[r.id := r],
        positionsId := old(positionsId) + 1)
      ensures Logged([PositionAdded(r.id, input, now)], now)
    {
      var id := positionsId;
      positionsId := positionsId + 1;
      r := Position(id, input.title, input.company, input.location, input.description,
        input.salaryMin, input.salaryMax, input.status, input.dateAdded.GetOr(now));
      positions := positions[id := r];
      var logged := CreateActivity(PositionAdded(id, input, now), now);
    }

    method UpdatePosition(id: int, patch: PositionPatch, now: int) returns (r: Option<Position>)
      requires Valid()
      modifies this
      ensures Valid()
      ensures id !in old(positions) ==> r == None && unchanged(this)
      ensures id in old(positions) ==>
        var existing := old(positions)[id];
        var updated := MergePosition(existing, patch);
        && r == Some(updated)
        && Snapshot() == old(Snapshot()).(positions := old(positions)[id := updated])
        && Logged(if StatusChangeLogged(patch.status, existing.status)
                  then [PositionUpdated(updated, patch.status.value, now)] else [], now)
    {
      if id !in positions {
        return None;
      }
      var existing := positions[id];
      var updated := MergePosition(existing, patch);
      positions := positions[id := updated];
      if StatusChangeLogged(patch.status, existing.status) {
        var logged := CreateActivity(PositionUpdated(updated, patch.status.value, now), now);
      }
      return Some(updated);
    }

    /** Refuses, leaving everything as it was, when the position is absent or a referral points
        at it; otherwise removes exactly that position and logs one `position_deleted`. */
    method DeletePosition(id: int, now: int) returns (deleted: bool)
      requires Valid()
      modifies this
      ensures Valid()
      ensures deleted <==> id in old(positions) && !ReferencesPosition(old(referrals), id)
      ensures !deleted ==> unchanged(this)
      ensures deleted ==>
        && Snapshot() == old(Snapshot()).(positions := old(positions) - {id})
        && Logged([PositionDeleted(old(positions)[id], now)], now)
    {
      if id !in positions {
        return false;
      }
      var position := positions[id];
      if exists k :: k in referrals && referrals[k].positionId == id {
        return false;
      }
      positions := positions - {id};
      var logged := CreateActivity(PositionDeleted(position, now), now);
      return true;
    }

    // --- Candidates

    function GetCandidate(id: int): (r: Option<Candidate>)
      reads this
      ensures r.Some? <==> id in candidates
      ensures r.Some? ==> r.value == candidates[id]
    {
      if id in candidates then Some(candidates[id]) else None
    }

    /** Every stored record once, in insertion (that is, increasing id) order. */
    function GetAllCandidates(): (r: seq<Candidate>)
      reads this
      requires Valid()
      ensures forall i :: 0 <= i < |r| ==> r[i].id in candidates && candidates[r[i].id] == r[i]
      ensures forall i, j :: 0 <= i < j < |r| ==> r[i].id < r[j].id
      ensures forall k :: k in candidates ==> candidates[k] in r
    {
      InIdOrderLists(candidates, candidatesId, (x: Candidate) => x.id);
      InIdOrder(candidates, candidatesId)
    }

    method CreateCandidate(input: CandidateInput, now: int) returns (r: Candidate)
      requires Valid()
      modifies this
      ensures Valid()
      ensures r == Candidate(old(candidatesId), input.fullName, input.email, input.phone,
        input.currentRole, input.skills, input.experience, input.salaryExpectation, input.notes,
        input.availability, input.status)
      ensures r.id !in old(candidates)
      ensures Snapshot() == old(Snapshot()).(candidates := old(candidates)[r.id := r],
        candidatesId := old(candidatesId) + 1)
      ensures Logged([CandidateAdded(r.id, input, now)], now)
    {
      var id := candidatesId;
      candidatesId := candidatesId + 1;
      r := Candidate(id, input.fullName, input.email, input.phone, input.currentRole, input.skills,
        input.experience, input.salaryExpectation, input.notes, input.availability, input.status);
      candidates := candidates[id := r];
      var logged := CreateActivity(CandidateAdded(id, input, now), now);
    }

    method UpdateCandidate(id: int, patch: CandidatePatch, now: int) returns (r: Option<Candidate>)
      requires Valid()
      modifies this
      ensures Valid()
      ensures id !in old(candidates) ==> r == None && unchanged(this)
      ensures id in old(candidates) ==>
        var existing := old(candidates)[id];
        var updated := MergeCandidate(existing, patch);
        && r == Some(updated)
        && Snapshot() == old(Snapshot()).(candidates := old(candidates)[id := updated])
        && Logged(if StatusChangeLogged(patch.status, existing.status)
                  then [CandidateUpdated(updated, patch.status.value, now)] else [], now)
    {
      if id !in candidates {
        return None;
      }
      var existing := candidates[id];
      var updated := MergeCandidate(existing, patch);
      candidates := candidates[id := updated];
      if StatusChangeLogged(patch.status, existing.status) {
        var logged := CreateActivity(CandidateUpdated(updated, patch.status.value, now), now);
      }
      return Some(updated);
    }

    method DeleteCandidate(id: int, now: int) returns (deleted: bool)
      requires Valid()
      modifies this
      ensures Valid()
      ensures deleted <==> id in old(candidates) && !ReferencesCandidate(old(referrals), id)
      ensures !deleted ==> unchanged(this)
      ensures deleted ==>
        && Snapshot() == old(Snapshot()).(candidates := old(candidates) - {id})
        && Logged([CandidateDeleted(old(candidates)[id], now)], now)
    {
      if id !in candidates {
        return false;
      }
      var candidate := candidates[id];
      if exists k :: k in referrals && referrals[k].candidateId == id {
        return false;
      }
      candidates := candidates - {id};
      var logged := CreateActivity(CandidateDeleted(candidate, now), now);
      return true;
    }

    // --- Referrals

    function GetReferral(id: int): (r: Option<ReferralWithDetails>)
      reads this
      ensures r.Some? <==> id in referrals
      ensures r.Some? ==> r.value.referral == referrals[id]
      ensures r.Some? ==>
        r.value.candidate == (if referrals[id].candidateId in candidates
                              then Some(candidates[referrals[id].candidateId]) else None)
      ensures r.Some? ==>
        r.value.position == (if referrals[id].positionId in positions
                             then Some(positions[referrals[id].positionId]) else None)
    {
      if id in referrals then Some(WithDetails(referrals[id], candidates, positions)) else None
    }

    /** Every stored record once, in insertion (that is, increasing id) order. */
    function ReferralList(): (r: seq<Referral>)
      reads this
      requires Valid()
      ensures forall i :: 0 <= i < |r| ==> r[i].id in referrals && referrals[r[i].id] == r[i]
      ensures forall i, j :: 0 <= i < j < |r| ==> r[i].id < r[j].id
      ensures forall k :: k in referrals ==> referrals[k] in r
    {
      InIdOrderLists(referrals, referralsId, (x: Referral) => x.id);
      InIdOrder(referrals, referralsId)
    }

    function GetAllReferrals(): (r: seq<ReferralWithDetails>)
      reads this
      requires Valid()
      ensures |r| == |ReferralList()|
      ensures forall i :: 0 <= i < |r| ==> r[i] == WithDetails(ReferralList()[i], candidates, positions)
    {
      var rs := ReferralList();
      WithDetailsAll(rs, candidates, positions)
    }

    /** Gives the new referral the next id and the creation defaults; logs `referral_created`
        only when both the candidate and the position exist (neither is required to). */
    method CreateReferral(input: ReferralInput, now: int) returns (r: Referral)
      requires Valid()
      modifies this
      ensures Valid()
      ensures r == NewReferral(old(referralsId), input, now) && r.id !in old(referrals)
      ensures Snapshot() == old(Snapshot()).(referrals := old(referrals)[r.id := r],
        referralsId := old(referralsId) + 1)
      ensures Logged(if input.candidateId in old(candidates) && input.positionId in old(positions)
        then [ReferralCreated(r.id, old(candidates)[input.candidateId], old(positions)[input.positionId], now)]
        else [], now)
    {
      var id := referralsId;
      referralsId := referralsId + 1;
      r := NewReferral(id, input, now);
      referrals := referrals[id := r];
      if input.candidateId in candidates && input.positionId in positions {
        var logged := CreateActivity(
          ReferralCreated(id, candidates[input.candidateId], positions[input.positionId], now), now);
      }
    }

    /** The hire cascade for referral `id`: logs the fee, then moves candidate `cid` to "Placed"
        through `UpdateCandidate` (which logs only if the status really changes). */
    method PlaceCandidate(id: int, fee: int, cid: int, now: int)
      requires Valid() && cid in candidates
      modifies this
      ensures Valid()
      ensures var c := old(candidates)[cid];
        && Snapshot() == old(Snapshot()).(candidates := old(candidates)[cid := c.(status := "Placed")])
        && Logged([ReferralFeeReceived(id, fee, c, now)]
                  + (if c.status != "Placed" then [CandidateUpdated(c.(status := "Placed"), "Placed", now)] else []),
                  now)
    {
      var candidate := candidates[cid];
      ghost var log0, next0 := activities, activitiesId;
      var feeEntry := ReferralFeeReceived(id, fee, candidate, now);
      var logged := CreateActivity(feeEntry, now);
      var placed := UpdateCandidate(candidate.id, StatusOnly("Placed"), now);
      AppendedConcat(log0, next0, [feeEntry],
        if candidate.status != "Placed" then [CandidateUpdated(candidate.(status := "Placed"), "Placed", now)] else [],
        now);
    }

    /** Merges the payload; when the cascade fires, logs the fee and places the referral's candidate. */
    method UpdateReferral(id: int, patch: ReferralPatch, now: int) returns (r: Option<Referral>)
      requires Valid()
      modifies this
      ensures Valid()
      ensures id !in old(referrals) ==> r == None && unchanged(this)
      ensures id in old(referrals) ==>
        var existing := old(referrals)[id];
        var updated := MergeReferral(existing, patch);
        && r == Some(updated)
        && if CascadeFires(existing, patch, old(candidates)) then
             var c := old(candidates)[existing.candidateId];
             && Snapshot() == old(Snapshot()).(referrals := old(referrals)[id := updated],
                  candidates := old(candidates)[existing.candidateId := c.(status := "Placed")])
             && Logged([ReferralFeeReceived(id, patch.feeEarned.value.value, c, now)]
                       + (if c.status != "Placed" then [CandidateUpdated(c.(status := "Placed"), "Placed", now)] else []),
                       now)
           else
             Snapshot() == old(Snapshot()).(referrals := old(referrals)[id := updated]) && Logged([], now)
    {
      if id !in referrals {
        return None;
      }
      var existing := referrals[id];
      var updated := MergeReferral(existing, patch);
      referrals := referrals[id := updated];
      if patch.status == Some("Hired") && existing.status != "Hired"
        && patch.feeEarned.Some? && TruthyNumber(patch.feeEarned.value)
      {
        if existing.candidateId in candidates {
          PlaceCandidate(id, patch.feeEarned.value.value, existing.candidateId, now);
        }
      }
      return Some(updated);
    }

    /** No guard: removes the referral if present, touches no candidate or position, and logs
        `referral_deleted` only when both linked records still exist. */
    method DeleteReferral(id: int, now: int) returns (deleted: bool)
      requires Valid()
      modifies this
      ensures Valid()
      ensures deleted <==> id in old(referrals)
      ensures !deleted ==> unchanged(this)
      ensures deleted ==>
        var gone := old(referrals)[id];
        && Snapshot() == old(Snapshot()).(referrals := old(referrals) - {id})
        && Logged(if gone.candidateId in old(candidates) && gone.positionId in old(positions)
                  then [ReferralDeleted(old(candidates)[gone.candidateId], old(positions)[gone.positionId], now)]
                  else [], now)
    {
      if id !in referrals {
        return false;
      }
      var referral := referrals[id];
      referrals := referrals - {id};
      if referral.candidateId in candidates && referral.positionId in positions {
        var logged := CreateActivity(
          ReferralDeleted(candidates[referral.candidateId], positions[referral.positionId], now), now);
      }
      return true;
    }

    // --- Dashboard

    /** Point-in-time counts and the fee total; the monthly figures are fixed constants. */
    function GetDashboardStats(): (s: DashboardStats)
      reads this
      requires Valid()
      ensures s.openPositions == |set k | k in positions && IsOpen(positions[k])|
      ensures s.activeCandidates == |set k | k in candidates && IsLooking(candidates[k])|
      ensures s.referralsMade == |referrals|
      ensures s.feesEarned == FeeTotal(ReferralList())
      ensures s.monthlyChange == MonthlyChange(3, 5, 12, 3200)
    {
      CountOpen(positions, positionsId);
      CountLooking(candidates, candidatesId);
      DashboardStats(
        |Filter(GetAllPositions(), IsOpen)|,
        |Filter(GetAllCandidates(), IsLooking)|,
        |referrals|,
        FeeTotal(ReferralList()),
        MonthlyChange(3, 5, 12, 3200))
    }
  }
}
