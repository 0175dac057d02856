/** Facts about built-in collections that several modules use. */
module Collections {

  datatype Option<T> = None | Some(value: T)

  ghost function Pick<T>(s: set<T>): (x: T)
    requires s != {}
    ensures x in s
  {
    var x :| x in s; x
  }

  /** The first place of an element, or the length. */
  function IndexOf<T(==)>(s: seq<T>, x: T): (i: nat)
    ensures i <= |s|
    ensures forall k | 0 <= k < i :: s[k] != x
    ensures i < |s| ==> s[i] == x
  {
    if s == [] || s[0] == x then 0 else 1 + IndexOf(s[1..], x)
  }

  lemma IndexIsFirst<T>(front: seq<T>, x: T, back: seq<T>)
    requires forall i | 0 <= i < |front| :: front[i] != x
    ensures IndexOf(front + [x] + back, x) == |front|
    ensures IndexOf(front, x) == |front|
  {
    var all := front + [x] + back;
    assert forall i | 0 <= i < |front| :: all[i] == front[i];
    assert all[|front|] == x;
  }

  /** The greatest key, or 0 in an empty map. */
  ghost predicate IsTopKey<T>(m: map<int, T>, key: int) {
    if key in m then forall k | k in m :: k <= key else key == 0 && forall k :: k !in m
  }
}
