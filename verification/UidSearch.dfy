// Choosing a user id that is not in use.
module UidSearch {
  import opened Decimal

  const FIRST_UID := 1000

  ghost predicate AllTaken(values: seq<string>, n: nat)
  {
    forall u: nat :: FIRST_UID <= u < n ==> Numeral(u) in values
  }

  ghost function Elements(values: seq<string>): set<string>
  {
    set i | 0 <= i < |values| :: values[i]
  }

  lemma {:induction false} FewElements(values: seq<string>)
    ensures |Elements(values)| <= |values|
  {
    if values != [] {
      var n := |values| - 1;
      FewElements(values[..n]);
      assert Elements(values) == Elements(values[..n]) + {values[n]};
    }
  }

  // The numerals of the ids below n.
  ghost function Numerals(n: nat): set<string>
  {
    set u | FIRST_UID <= u < n :: Numeral(u)
  }

  lemma {:induction false} NumeralsDistinct(n: nat)
    requires n >= FIRST_UID
    ensures |Numerals(n)| == n - FIRST_UID
    decreases n
  {
    if n > FIRST_UID {
      NumeralsDistinct(n - 1);
      assert Numerals(n) == Numerals(n - 1) + {Numeral(n - 1)};
      if Numeral(n - 1) in Numerals(n - 1) {
        var u :| FIRST_UID <= u < n - 1 && Numeral(u) == Numeral(n - 1);
        NumeralInjective(u, n - 1);
        assert false;
      }
    } else {
      assert Numerals(n) == {};
    }
  }

  // Values can take no more ids than there are values.
  lemma {:induction false} TakenBounded(values: seq<string>, n: nat)
    requires n >= FIRST_UID && AllTaken(values, n)
    ensures n - FIRST_UID <= |values|
  {
    FewElements(values);
    NumeralsDistinct(n);
    assert Numerals(n) <= Elements(values);
    assert Elements(values) == Numerals(n) + (Elements(values) - Numerals(n));
  }

  // The least id whose numeral is not among the values.
  method FindUid(values: seq<string>) returns (uid: nat)
    ensures uid >= FIRST_UID && Numeral(uid) !in values
    ensures forall u: nat :: FIRST_UID <= u < uid ==> Numeral(u) in values
    ensures uid <= FIRST_UID + |values|
  {
    uid := FIRST_UID;
    if |values| == 0 {
      return;
    }
    var found := true;
    while found
      invariant uid >= FIRST_UID && AllTaken(values, uid) && uid <= FIRST_UID + |values|
      invariant !found ==> Numeral(uid) !in values
      decreases FIRST_UID + |values| - uid, found
    {
      found := false;
      for i := 0 to |values|
        invariant !found && uid >= FIRST_UID && AllTaken(values, uid) && uid <= FIRST_UID + |values|
        invariant forall j :: 0 <= j < i ==> values[j] != Numeral(uid)
      {
        if values[i] == Numeral(uid) {
          TakenBounded(values, uid + 1);
          uid := uid + 1;
          found := true;
          break;
        }
      }
    }
  }
}
