/** Display helpers (client/src/lib/utils/format.ts): availability labels and readable lists. */
module Format {
  import opened Text

  /** The four availability codes the forms store. */
  predicate IsAvailabilityCode(a: string) {
    a == "immediate" || a == "2weeks" || a == "1month" || a == "3months"
  }

  /** The label for an availability code; any other value is shown as it is. */
  function FormatAvailability(availability: string): (r: string)
    ensures !IsAvailabilityCode(availability) ==> r == availability
  {
    match availability
    case "immediate" => "Immediate"
    case "2weeks" => "2 Weeks Notice"
    case "1month" => "1 Month Notice"
    case "3months" => "3+ Months"
    case _ => availability
  }

  /** A value is relabelled exactly when it is one of the codes, and distinct codes get distinct labels. */
  lemma AvailabilityRelabels(a: string, b: string)
    ensures FormatAvailability(a) != a <==> IsAvailabilityCode(a)
    ensures IsAvailabilityCode(a) && IsAvailabilityCode(b) && FormatAvailability(a) == FormatAvailability(b) ==> a == b
  {
  }

  /** "a, b, c and d": every item but the last joined by ", ", then " and " and the last item. */
  function FormatList(items: seq<string>): (r: string)
    ensures |items| == 0 ==> r == ""
    ensures |items| == 1 ==> r == items[0]
  {
    if |items| == 0 then ""
    else if |items| == 1 then items[0]
    else Join(items[..|items| - 1], ", ") + " and " + items[|items| - 1]
  }

  /** Two items are joined by " and " alone. */
  lemma FormatListPair(a: string, b: string)
    ensures FormatList([a, b]) == a + " and " + b
  {
    assert [a, b][..1] == [a];
  }

  /** From three items on, the list is the first item, ", " and the list of the rest. */
  lemma FormatListCons(items: seq<string>)
    requires |items| >= 3
    ensures FormatList(items) == items[0] + ", " + FormatList(items[1..])
  {
    var n := |items|;
    var init := items[..n - 1];
    assert init[1..] == items[1..][..n - 2];
    assert items[1..][n - 2] == items[n - 1];
  }

  /** The text holds every item, one ", " between the leading items and one " and " before the last. */
  lemma FormatListLength(items: seq<string>)
    requires |items| >= 2
    ensures |FormatList(items)| == TotalLength(items) + 2 * (|items| - 2) + 5
  {
    var n := |items|;
    var init, last := items[..n - 1], items[n - 1];
    var sep, and := ", ", " and ";
    assert |sep| == 2 && |and| == 5;
    assert FormatList(items) == Join(init, sep) + and + last;
    JoinLength(init, sep);
    assert (|init| - 1) * |sep| == 2 * (n - 2);
    assert |FormatList(items)| == TotalLength(init) + 2 * (n - 2) + 5 + |last|;
    assert init + [last] == items;
    TotalLengthSnoc(init, last);
  }

  lemma {:induction false} TotalLengthSnoc(parts: seq<string>, last: string)
    ensures TotalLength(parts + [last]) == TotalLength(parts) + |last|
  {
    if parts != [] {
      assert (parts + [last])[1..] == parts[1..] + [last];
      TotalLengthSnoc(parts[1..], last);
    }
  }

  /** The text starts with the first item and ends with the last. */
  lemma FormatListEnds(items: seq<string>)
    requires |items| >= 1
    ensures StartsWith(FormatList(items), items[0])
    ensures var r := FormatList(items); var last := items[|items| - 1];
      |last| <= |r| && r[|r| - |last|..] == last
  {
    var n := |items|;
    if n >= 2 {
      var r := FormatList(items);
      var head := Join(items[..n - 1], ", ");
      JoinStartsWithFirst(items[..n - 1], ", ");
      assert r == head + (" and " + items[n - 1]);
      assert r[..|items[0]|] == head[..|items[0]|];
    }
  }

  lemma {:induction false} JoinStartsWithFirst(parts: seq<string>, sep: string)
    requires |parts| >= 1
    ensures StartsWith(Join(parts, sep), parts[0])
  {
    if |parts| > 1 {
      assert Join(parts, sep) == parts[0] + (sep + Join(parts[1..], sep));
    }
  }
}
