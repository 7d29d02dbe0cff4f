/** The strictly increasing timestamps the TS muxer is given. */
module TimestampRepair {
  import opened Media

  /** Each timestamp is the wanted one or, if that is too early, one past the previous. */
  function Repair(last: int, wanted: seq<int>): (r: seq<int>)
    ensures |r| == |wanted|
    decreases |wanted|
  {
    if wanted == [] then []
    else
      var t := Max(wanted[0], last + 1);
      [t] + Repair(t, wanted[1..])
  }

  function LastOr(default: int, s: seq<int>): (t: int)
  {
    if s == [] then default else s[|s| - 1]
  }

  ghost predicate Increasing(last: int, s: seq<int>)
  {
    && (forall i :: 0 <= i < |s| ==> s[i] > last)
    && (forall i, j :: 0 <= i < j < |s| ==> s[i] < s[j])
  }

  ghost predicate Dominates(s: seq<int>, wanted: seq<int>)
  {
    |s| == |wanted| && forall i :: 0 <= i < |s| ==> s[i] >= wanted[i]
  }

  /** Strictly increasing, past `last`, and never earlier than wanted. */
  lemma {:induction false} RepairIsIncreasing(last: int, wanted: seq<int>)
    ensures Increasing(last, Repair(last, wanted))
    ensures Dominates(Repair(last, wanted), wanted)
    decreases |wanted|
  {
    if wanted != [] {
      RepairIsIncreasing(Max(wanted[0], last + 1), wanted[1..]);
    }
  }

  /** No increasing, dominating sequence is anywhere earlier. */
  lemma {:induction false} RepairIsMinimal(last: int, wanted: seq<int>, other: seq<int>)
    requires Increasing(last, other) && Dominates(other, wanted)
    ensures forall i :: 0 <= i < |wanted| ==> Repair(last, wanted)[i] <= other[i]
    decreases |wanted|
  {
    if wanted != [] {
      var t := Max(wanted[0], last + 1);
      assert Increasing(other[0], other[1..]);
      RepairIsMinimal(other[0], wanted[1..], other[1..]);
      RepairMonotone(t, other[0], wanted[1..]);
    }
  }

  lemma {:induction false} RepairMonotone(a: int, b: int, wanted: seq<int>)
    requires a <= b
    ensures forall i :: 0 <= i < |wanted| ==> Repair(a, wanted)[i] <= Repair(b, wanted)[i]
    decreases |wanted|
  {
    if wanted != [] {
      RepairMonotone(Max(wanted[0], a + 1), Max(wanted[0], b + 1), wanted[1..]);
    }
  }

  /** The closed form: entry `i` is the largest of `last + 1 + i` and all
      `wanted[j] + (i - j)` with `j <= i`; it bounds each of them and is one of them. */
  lemma {:induction false} RepairClosedForm(last: int, wanted: seq<int>, i: nat)
    requires i < |wanted|
    ensures Repair(last, wanted)[i] >= last + 1 + i
    ensures forall j :: 0 <= j <= i ==> Repair(last, wanted)[i] >= wanted[j] + (i - j)
    ensures Repair(last, wanted)[i] == last + 1 + i
            || exists j :: 0 <= j <= i && Repair(last, wanted)[i] == wanted[j] + (i - j)
    decreases |wanted|
  {
    var t := Max(wanted[0], last + 1);
    if i == 0 {
      assert wanted[0] + (0 - 0) == wanted[0];
    } else {
      var rest := wanted[1..];
      RepairClosedForm(t, rest, i - 1);
      var r := Repair(t, rest)[i - 1];
      assert Repair(last, wanted)[i] == r;
      forall j | 0 <= j <= i
        ensures r >= wanted[j] + (i - j)
      {
        if j > 0 {
          assert r >= rest[j - 1] + (i - 1 - (j - 1));
        }
      }
      if r != last + 1 + i {
        if r == t + 1 + (i - 1) {
          assert r == wanted[0] + (i - 0);
        } else {
          var j :| 0 <= j <= i - 1 && r == rest[j] + (i - 1 - j);
          assert r == wanted[j + 1] + (i - (j + 1));
        }
      }
    }
  }

  lemma {:induction false} RepairSnoc(last: int, wanted: seq<int>, p: int)
    ensures var r := Repair(last, wanted);
            Repair(last, wanted + [p]) == r + [Max(p, LastOr(last, r) + 1)]
    decreases |wanted|
  {
    if wanted == [] {
      assert wanted + [p] == [p];
    } else {
      var t := Max(wanted[0], last + 1);
      RepairSnoc(t, wanted[1..], p);
      assert (wanted + [p])[1..] == wanted[1..] + [p];
    }
  }
}
