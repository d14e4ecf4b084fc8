/** `ScrambledEquals`, found both in ExtensionMethods.cs and in Utils/HandEvaluation.cs:
    whether two sequences hold the same elements with the same multiplicities, decided
    by counting in a dictionary. */
module Collections {

  /** Counts the elements of list1 up, then those of list2 down; an element of list2
      never seen in list1 answers false at once, and otherwise every count must end at
      zero. The answer is multiset equality. */
  method ScrambledEquals<T(==)>(list1: seq<T>, list2: seq<T>) returns (r: bool)
    ensures r <==> multiset(list1) == multiset(list2)
  {
    var cnt: map<T, int> := map[];
    var i := 0;
    while i < |list1|
      invariant 0 <= i <= |list1|
      invariant forall x :: x in cnt <==> x in list1[..i]
      invariant forall x | x in cnt :: cnt[x] == multiset(list1[..i])[x]
    {
      var s := list1[i];
      if s in cnt {
        cnt := cnt[s := cnt[s] + 1];
      } else {
        cnt := cnt[s := 1];
      }
      assert list1[..i + 1] == list1[..i] + [s];
      i := i + 1;
    }
    assert list1[..i] == list1;
    var j := 0;
    while j < |list2|
      invariant 0 <= j <= |list2|
      invariant forall x :: x in cnt <==> x in list1
      invariant forall x | x in cnt :: cnt[x] == multiset(list1)[x] as int - multiset(list2[..j])[x] as int
      invariant forall x | x in list2[..j] :: x in list1
    {
      var s := list2[j];
      if s in cnt {
        cnt := cnt[s := cnt[s] - 1];
      } else {
        assert multiset(list1)[s] == 0 && s in multiset(list2);
        return false;
      }
      assert list2[..j + 1] == list2[..j] + [s];
      j := j + 1;
    }
    assert list2[..j] == list2;
    r := forall x | x in cnt :: cnt[x] == 0;
    FinalCounts(cnt, list1, list2);
  }

  /** After both passes, the counts are all zero exactly when the multisets agree. */
  lemma FinalCounts<T>(cnt: map<T, int>, list1: seq<T>, list2: seq<T>)
    requires forall x :: x in cnt <==> x in list1
    requires forall x | x in cnt :: cnt[x] == multiset(list1)[x] as int - multiset(list2)[x] as int
    requires forall x | x in list2 :: x in list1
    ensures (forall x | x in cnt :: cnt[x] == 0) <==> multiset(list1) == multiset(list2)
  {
    if forall x | x in cnt :: cnt[x] == 0 {
      forall x ensures multiset(list1)[x] == multiset(list2)[x] {
        if x !in cnt {
          assert x !in list1 && x !in list2;
        }
      }
    } else {
      var x :| x in cnt && cnt[x] != 0;
      assert multiset(list1)[x] != multiset(list2)[x];
    }
  }
}
