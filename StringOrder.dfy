/** The order in which a pandas `groupby` emits its string keys: the
    lexicographic order on code points, where a proper prefix comes first. */
module StringOrder {

  /** `a` sorts strictly before `b`. */
  predicate Less(a: string, b: string)
  {
    |b| > 0 && (|a| == 0 || a[0] < b[0] || (a[0] == b[0] && Less(a[1..], b[1..])))
  }

  lemma {:induction false} LessIrreflexive(a: string)
    ensures !Less(a, a)
  {
    if |a| > 0 {
      LessIrreflexive(a[1..]);
    }
  }

  lemma {:induction false} LessTransitive(a: string, b: string, c: string)
    requires Less(a, b) && Less(b, c)
    ensures Less(a, c)
  {
    if |a| > 0 && a[0] == b[0] && b[0] == c[0] {
      LessTransitive(a[1..], b[1..], c[1..]);
    }
  }

  lemma {:induction false} LessTotal(a: string, b: string)
    requires a != b
    ensures Less(a, b) || Less(b, a)
  {
    if |a| > 0 && |b| > 0 && a[0] == b[0] {
      assert a == [a[0]] + a[1..] && b == [b[0]] + b[1..];
      LessTotal(a[1..], b[1..]);
    }
  }

  /** Every key sorts strictly before every later key. */
  predicate StrictlySorted(keys: seq<string>)
  {
    forall i, j :: 0 <= i < j < |keys| ==> Less(keys[i], keys[j])
  }

  predicate Distinct(keys: seq<string>)
  {
    forall i, j :: 0 <= i < j < |keys| ==> keys[i] != keys[j]
  }

  lemma SortedIsDistinct(keys: seq<string>)
    requires StrictlySorted(keys)
    ensures Distinct(keys)
  {
    forall i, j | 0 <= i < j < |keys|
      ensures keys[i] != keys[j]
    {
      LessIrreflexive(keys[i]);
    }
  }

  /** Adds `s` to a sorted key list at its place, unless it is already there. */
  function Insert(keys: seq<string>, s: string): (r: seq<string>)
    requires StrictlySorted(keys)
    ensures StrictlySorted(r)
    ensures forall x :: x in r <==> x in keys || x == s
  {
    if keys == [] then [s]
    else if s == keys[0] then keys
    else if Less(s, keys[0]) then
      assert forall j :: 0 < j < |keys| ==> Less(s, keys[j]) by {
        forall j | 0 < j < |keys| ensures Less(s, keys[j]) {
          LessTransitive(s, keys[0], keys[j]);
        }
      }
      [s] + keys
    else
      LessTotal(s, keys[0]);
      assert keys == [keys[0]] + keys[1..];
      var tail := Insert(keys[1..], s);
      assert forall j :: 0 <= j < |tail| ==> Less(keys[0], tail[j]) by {
        forall j | 0 <= j < |tail| ensures Less(keys[0], tail[j]) {
          assert tail[j] in keys[1..] || tail[j] == s;
        }
      }
      [keys[0]] + tail
  }
}
