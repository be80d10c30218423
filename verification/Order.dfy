// The two orders every walk and every canonical image rests on: byte order on names, and the
// same order lifted to sequences of names.
module Order {
  import opened Texts

  predicate Below(a: Text, b: Text) {
    b != [] && (a == [] || a[0] < b[0] || (a[0] == b[0] && Below(a[1..], b[1..])))
  }

  predicate PathBelow(a: seq<Text>, b: seq<Text>) {
    b != [] && (a == [] || Below(a[0], b[0]) || (a[0] == b[0] && PathBelow(a[1..], b[1..])))
  }

  // One text is below another exactly if it is a proper front of it, or smaller at the first byte they
  // differ in.
  lemma {:induction false} BelowIsByteOrder(a: Text, b: Text)
    ensures Below(a, b) <==> exists k :: 0 <= k <= |a| && k < |b| && a[..k] == b[..k] && (k == |a| || a[k] < b[k])
  {
    if a == [] || b == [] {
      assert a[..0] == b[..0];
    } else if a[0] != b[0] {
      assert a[..0] == b[..0];
      assert forall k :: 0 < k <= |a| && k < |b| ==> a[..k][0] == a[0] && b[..k][0] == b[0];
    } else {
      BelowIsByteOrder(a[1..], b[1..]);
      forall k | 0 < k <= |a| && k < |b|
        ensures a[..k] == b[..k] <==> a[1..][..k - 1] == b[1..][..k - 1]
      {
        assert a[..k] == [a[0]] + a[1..][..k - 1] && b[..k] == [b[0]] + b[1..][..k - 1];
        if a[..k] == b[..k] { assert a[..k][1..] == b[..k][1..]; }
      }
      if Below(a, b) {
        var k :| 0 <= k <= |a[1..]| && k < |b[1..]| && a[1..][..k] == b[1..][..k]
          && (k == |a[1..]| || a[1..][k] < b[1..][k]);
        assert a[..k + 1] == b[..k + 1];
      }
      if exists k :: 0 <= k <= |a| && k < |b| && a[..k] == b[..k] && (k == |a| || a[k] < b[k]) {
        var k :| 0 <= k <= |a| && k < |b| && a[..k] == b[..k] && (k == |a| || a[k] < b[k]);
        assert k > 0 && a[1..][..k - 1] == b[1..][..k - 1];
      }
    }
  }

  // Exactly one of: below, equal, above.
  lemma {:induction false} BelowTotal(a: Text, b: Text)
    ensures Below(a, b) || a == b || Below(b, a)
    ensures !(Below(a, b) && Below(b, a)) && (Below(a, b) ==> a != b)
  {
    if a != [] && b != [] && a[0] == b[0] {
      BelowTotal(a[1..], b[1..]);
      if a[1..] == b[1..] {
        assert a == [a[0]] + a[1..] && b == [b[0]] + b[1..];
      }
    }
  }

  lemma {:induction false} BelowTransitive(a: Text, b: Text, c: Text)
    requires Below(a, b) && Below(b, c)
    ensures Below(a, c)
  {
    if a != [] && a[0] == b[0] && b[0] == c[0] {
      BelowTransitive(a[1..], b[1..], c[1..]);
    }
  }

  lemma {:induction false} PathBelowTotal(a: seq<Text>, b: seq<Text>)
    ensures PathBelow(a, b) || a == b || PathBelow(b, a)
    ensures !(PathBelow(a, b) && PathBelow(b, a)) && (PathBelow(a, b) ==> a != b)
  {
    if a != [] && b != [] {
      BelowTotal(a[0], b[0]);
      if a[0] == b[0] {
        PathBelowTotal(a[1..], b[1..]);
        if a[1..] == b[1..] {
          assert a == [a[0]] + a[1..] && b == [b[0]] + b[1..];
        }
      }
    }
  }

  lemma {:induction false} PathBelowTransitive(a: seq<Text>, b: seq<Text>, c: seq<Text>)
    requires PathBelow(a, b) && PathBelow(b, c)
    ensures PathBelow(a, c)
  {
    if a != [] {
      BelowTotal(a[0], b[0]);
      BelowTotal(b[0], c[0]);
      if a[0] == b[0] && b[0] == c[0] {
        PathBelowTransitive(a[1..], b[1..], c[1..]);
      } else if Below(a[0], b[0]) && Below(b[0], c[0]) {
        BelowTransitive(a[0], b[0], c[0]);
      }
    }
  }

  // The first component two paths differ in decides.
  lemma {:induction false} PathBelowAt(a: seq<Text>, b: seq<Text>, k: nat)
    requires k < |a| && k < |b| && a[..k] == b[..k] && Below(a[k], b[k])
    ensures PathBelow(a, b)
  {
    if k > 0 {
      assert a[0] == a[..k][0] == b[..k][0] == b[0];
      assert a[1..][..k - 1] == a[..k][1..] == b[..k][1..] == b[1..][..k - 1];
      PathBelowAt(a[1..], b[1..], k - 1);
    }
  }

  // A proper extension comes after what it extends.
  lemma {:induction false} PathBelowExtension(a: seq<Text>, more: seq<Text>)
    requires more != []
    ensures PathBelow(a, a + more)
  {
    if a != [] {
      assert (a + more)[1..] == a[1..] + more;
      PathBelowExtension(a[1..], more);
    }
  }
}
