/** The two list operations a checkbox change performs on the selected tech
    stacks: append the value when the box is checked, filter out every
    occurrence of it when the box is cleared. */
module Lists {

  /** No element occurs twice. */
  predicate NoDup<T(==)>(s: seq<T>) {
    forall i, j :: 0 <= i < j < |s| ==> s[i] != s[j]
  }

  /** `s.filter(item => item !== v)`. */
  function RemoveAll<T(==)>(s: seq<T>, v: T): (r: seq<T>)
    ensures multiset(r) == multiset(s)[v := 0]
    ensures v !in r
    ensures forall x :: x in r ==> x in s
    ensures forall x :: x in s && x != v ==> x in r
  {
    if |s| == 0 then []
    else
      assert s == [s[0]] + s[1..];
      if s[0] == v then RemoveAll(s[1..], v)
      else [s[0]] + RemoveAll(s[1..], v)
  }

  /** Filtering keeps the survivors in their original relative order: it
      distributes over concatenation. */
  lemma {:induction false} RemoveAllConcat<T>(a: seq<T>, b: seq<T>, v: T)
    ensures RemoveAll(a + b, v) == RemoveAll(a, v) + RemoveAll(b, v)
    decreases |a|
  {
    if |a| == 0 {
      assert a + b == b;
    } else {
      assert (a + b)[0] == a[0];
      assert (a + b)[1..] == a[1..] + b;
      RemoveAllConcat(a[1..], b, v);
      if a[0] != v {
        calc {
          RemoveAll(a + b, v);
          [a[0]] + RemoveAll(a[1..] + b, v);
          [a[0]] + (RemoveAll(a[1..], v) + RemoveAll(b, v));
          ([a[0]] + RemoveAll(a[1..], v)) + RemoveAll(b, v);
        }
      }
    }
  }

  /** Filtering out a value that does not occur changes nothing. */
  lemma {:induction false} RemoveAllAbsent<T>(s: seq<T>, v: T)
    requires v !in s
    ensures RemoveAll(s, v) == s
    decreases |s|
  {
    if |s| != 0 {
      assert s[0] != v;
      assert s == [s[0]] + s[1..];
      RemoveAllAbsent(s[1..], v);
    }
  }

  lemma RemoveAllIdempotent<T>(s: seq<T>, v: T)
    ensures RemoveAll(RemoveAll(s, v), v) == RemoveAll(s, v)
  {
  }

  /** Absence of duplicates, stated by counting. */
  lemma {:induction false} NoDupIffCountsAtMostOne<T>(s: seq<T>)
    ensures NoDup(s) <==> forall x :: multiset(s)[x] <= 1
    decreases |s|
  {
    if |s| != 0 {
      var t := s[1..];
      assert s == [s[0]] + t;
      NoDupIffCountsAtMostOne(t);
      assert NoDup(s) <==> NoDup(t) && s[0] !in t by {
        if NoDup(s) {
          forall i, j | 0 <= i < j < |t| ensures t[i] != t[j] {
            assert t[i] == s[i + 1] && t[j] == s[j + 1];
          }
          forall k | 0 <= k < |t| ensures t[k] != s[0] {
            assert t[k] == s[k + 1];
          }
        }
        if NoDup(t) && s[0] !in t {
          forall i, j | 0 <= i < j < |s| ensures s[i] != s[j] {
            assert s[j] == t[j - 1];
            if i > 0 {
              assert s[i] == t[i - 1];
            }
          }
        }
      }
      assert multiset(s) == multiset{s[0]} + multiset(t);
      if NoDup(t) && s[0] !in t {
        forall x ensures multiset(s)[x] <= 1 {
          if x == s[0] {
            assert multiset(t)[x] == 0;
          }
        }
      }
      if forall x :: multiset(s)[x] <= 1 {
        forall x ensures multiset(t)[x] <= 1 {
          assert multiset(t)[x] <= multiset(s)[x];
        }
        assert multiset(t)[s[0]] == 0 by {
          assert multiset(s)[s[0]] == 1 + multiset(t)[s[0]];
        }
      }
    }
  }

  /** The checkbox step: `checked ? [...s, v] : s.filter(item => item !== v)`. */
  function Toggle<T(==)>(s: seq<T>, v: T, checked: bool): (r: seq<T>)
    ensures checked ==> |r| == |s| + 1 && r[..|s|] == s && r[|s|] == v
    ensures !checked ==> v !in r && multiset(r) == multiset(s)[v := 0]
    ensures forall x :: x in r ==> (x in s && x != v) || (checked && x == v)
    ensures forall x :: x in s && x != v ==> x in r
    ensures checked ==> v in r
  {
    if checked then s + [v] else RemoveAll(s, v)
  }

  /** Checking a box that was clear and then clearing it restores the list. */
  lemma CheckThenUncheck<T>(s: seq<T>, v: T)
    requires v !in s
    ensures Toggle(Toggle(s, v, true), v, false) == s
  {
    RemoveAllConcat(s, [v], v);
    RemoveAllAbsent(s, v);
  }

  /** Clearing a checked box and checking it again gives back the same
      selection, with the value moved to the end. */
  lemma UncheckThenCheck<T>(s: seq<T>, v: T)
    requires NoDup(s) && v in s
    ensures multiset(Toggle(Toggle(s, v, false), v, true)) == multiset(s)
    ensures Toggle(Toggle(s, v, false), v, true) == RemoveAll(s, v) + [v]
  {
    NoDupIffCountsAtMostOne(s);
    assert multiset(s)[v] == 1;
  }

  /** When `checked` reflects the box's displayed state (it is checked
      exactly when the value is absent), a toggle keeps the list free of
      duplicates and flips the value's membership. */
  lemma ToggleKeepsNoDup<T>(s: seq<T>, v: T, checked: bool)
    requires NoDup(s)
    requires checked == (v !in s)
    ensures NoDup(Toggle(s, v, checked))
    ensures v in Toggle(s, v, checked) <==> v !in s
  {
    var r := Toggle(s, v, checked);
    NoDupIffCountsAtMostOne(s);
    NoDupIffCountsAtMostOne(r);
    if checked {
      assert multiset(r) == multiset(s) + multiset{v};
    }
  }
}
