/**
 * Ids the dashboard pages give to new records. As written, a new order or
 * menu gets `(list.length + 1).toString()`, which repeats an existing id once
 * a record has been deleted; `FreshNumericId` is the corrected choice, one
 * more than the largest numeric id in use.
 */
module RecordIds {
  import opened Common

  /** `(count + 1).toString()`: the id the dashboards assign to a new record. */
  function CountId(count: nat): (r: string)
    ensures AllDigits(r) && DecimalValue(r) == count + 1
  {
    DecimalValueOfNatToString(count + 1);
    NatToString(count + 1)
  }

  /** The largest value among the ids that are decimal numerals (0 when there is none). */
  function MaxNumericId(ids: seq<string>): (r: nat)
    ensures forall i :: 0 <= i < |ids| && AllDigits(ids[i]) ==> DecimalValue(ids[i]) <= r
    ensures r > 0 ==> exists i :: 0 <= i < |ids| && AllDigits(ids[i]) && DecimalValue(ids[i]) == r
  {
    if |ids| == 0 then 0
    else
      var rest := MaxNumericId(ids[1..]);
      assert forall i :: 1 <= i < |ids| ==> ids[i] == ids[1..][i - 1];
      if AllDigits(ids[0]) && DecimalValue(ids[0]) > rest then DecimalValue(ids[0]) else rest
  }

  /** The corrected id: one more than every numeric id in use, spelled in decimal. */
  function FreshNumericId(ids: seq<string>): (r: string)
    ensures AllDigits(r) && r !in ids
  {
    var m := MaxNumericId(ids);
    DecimalValueOfNatToString(m + 1);
    NatToString(m + 1)
  }

  /**
   * While no record has been deleted (the ids are `"1"`, …, `"n"` in order),
   * the corrected id is the one the dashboards assign.
   */
  lemma {:induction false} FreshIdMatchesCountIdWithoutDeletes(n: nat)
    ensures FreshNumericId(seq(n, i requires 0 <= i => NatToString(i + 1))) == CountId(n)
  {
    var ids := seq(n, i requires 0 <= i => NatToString(i + 1));
    MaxOfFirstNumerals(n);
  }

  /** The largest of `"1"`, …, `"n"` is `n`. */
  lemma {:induction false} MaxOfFirstNumerals(n: nat)
    ensures MaxNumericId(seq(n, i requires 0 <= i => NatToString(i + 1))) == n
  {
    var ids := seq(n, i requires 0 <= i => NatToString(i + 1));
    if n > 0 {
      DecimalValueOfNatToString(n);
      assert ids[n - 1] == NatToString(n);
      forall i | 0 <= i < n
        ensures DecimalValue(ids[i]) == i + 1
      {
        DecimalValueOfNatToString(i + 1);
      }
    }
  }

  /** Counterexample: after deleting `"1"` from `["1", "2"]`, the next assigned id is `"2"` again. */
  lemma CountIdRepeatsAfterDelete()
    ensures CountId(|["2"]|) == "2"
    ensures CountId(|["2"]|) in ["2"]
  {
    assert NatToString(2) == [DigitChar(2)];
  }

  // ---------------------------------------------------------------------------
  // Deleting by id
  // ---------------------------------------------------------------------------

  /** `x => x.id !== id` for a record type whose id `idOf` reads. */
  function IdNot<T>(id: string, idOf: T -> string): T -> bool {
    (x: T) => idOf(x) != id
  }

  /**
   * `list.filter(x => x.id !== id)`: every record with the id is dropped; each
   * other record stays, as often as it was there and in its place in the order.
   */
  function DeleteById<T>(s: seq<T>, id: string, idOf: T -> string): (r: seq<T>)
    ensures forall i :: 0 <= i < |r| ==> idOf(r[i]) != id && r[i] in s
    ensures forall i :: 0 <= i < |s| && idOf(s[i]) != id ==> s[i] in r
    ensures forall i :: 0 <= i < |s| ==> multiset(r)[s[i]] == if idOf(s[i]) != id then multiset(s)[s[i]] else 0
    ensures IsSubsequence(r, s)
    ensures (forall i :: 0 <= i < |s| ==> idOf(s[i]) != id) ==> r == s
  {
    Filter(s, IdNot(id, idOf))
  }

  /** Deleting the id of a record appended to a list that does not use it gives the list back. */
  lemma DeleteAppendedFreshId<T>(s: seq<T>, x: T, idOf: T -> string)
    requires forall i :: 0 <= i < |s| ==> idOf(s[i]) != idOf(x)
    ensures DeleteById(s + [x], idOf(x), idOf) == s
  {
    FilterDropsLast(s, x, IdNot(idOf(x), idOf));
  }

  /** Deleting an id that every record carries leaves nothing. */
  lemma DeleteSharedIdEmpties<T>(s: seq<T>, id: string, idOf: T -> string)
    requires forall i :: 0 <= i < |s| ==> idOf(s[i]) == id
    ensures DeleteById(s, id, idOf) == []
  {
    var r := DeleteById(s, id, idOf);
    assert forall x :: x in s ==> idOf(x) == id;
    assert multiset(r) == multiset{};
  }

  /** A leading record with the deleted id goes, and the rest are deleted from as before. */
  lemma DeleteDropsMatchingHead<T>(x: T, s: seq<T>, idOf: T -> string)
    ensures DeleteById([x] + s, idOf(x), idOf) == DeleteById(s, idOf(x), idOf)
  {
    var xs := [x] + s;
    assert xs[0] == x && xs[1..] == s;
    assert !IdNot(idOf(x), idOf)(x);
  }
}
