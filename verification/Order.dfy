/** Finite sets of numbers in ascending order, as an ordered map or set iterates them. */
module Order {

  predicate IsMin(s: set<nat>, m: nat) { m in s && forall k :: k in s ==> m <= k }

  lemma {:induction false} MinExists(s: set<nat>)
    requires s != {}
    ensures exists m :: IsMin(s, m)
  {
    var x :| x in s;
    if s == {x} {
      assert IsMin(s, x);
    } else {
      MinExists(s - {x});
      var y :| IsMin(s - {x}, y);
      var m := if x <= y then x else y;
      forall k | k in s ensures m <= k { if k != x { assert k in s - {x}; } }
      assert IsMin(s, m);
    }
  }

  ghost predicate StrictlyAscending(r: seq<nat>) {
    forall i, j :: 0 <= i < j < |r| ==> r[i] < r[j]
  }

  function Ascending(s: set<nat>): (r: seq<nat>)
    ensures StrictlyAscending(r)
    ensures forall k :: k in r <==> k in s
    ensures |r| == |s|
  {
    if s == {} then []
    else
      MinExists(s);
      var m :| m in s && IsMin(s, m);
      [m] + Ascending(s - {m})
  }

  lemma SomeMember(b: seq<nat>)
    ensures b != [] ==> exists k :: k in b
  {
    if b != [] { assert b[0] in b; }
  }

  /** Only one ascending sequence has the given members. */
  lemma {:induction false} AscendingUnique(a: seq<nat>, b: seq<nat>)
    requires StrictlyAscending(a) && StrictlyAscending(b)
    requires forall k :: k in a <==> k in b
    ensures a == b
  {
    if a == [] {
      SomeMember(b);
    } else {
      assert a[0] in b && b != [] && b[0] in a;
      assert a[0] == b[0];
      forall k ensures k in a[1..] <==> k in b[1..] {
        assert k in a[1..] <==> k in a && k != a[0];
        assert k in b[1..] <==> k in b && k != b[0];
      }
      AscendingUnique(a[1..], b[1..]);
      assert a == [a[0]] + a[1..] && b == [b[0]] + b[1..];
    }
  }
}
