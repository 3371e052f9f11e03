/** The order of strings used by every key index in the peer (Go's strings.Compare). */
module Lex {

  /** Strictly below. Keys are sequences of code points; by section 1 of RFC 3629
      comparing their UTF-8 bytes gives the same order. */
  predicate Less(a: string, b: string) {
    if b == "" then false
    else if a == "" then true
    else a[0] < b[0] || (a[0] == b[0] && Less(a[1..], b[1..]))
  }

  predicate Leq(a: string, b: string) {
    a == b || Less(a, b)
  }

  /** The keys a state scan returns: the start is included, the end is not, "" means no end. */
  predicate InRange(key: string, start: string, end: string) {
    Leq(start, key) && (end == "" || Less(key, end))
  }

  lemma {:induction false} LessIrreflexive(a: string)
    ensures !Less(a, a)
  {
    if a != "" {
      LessIrreflexive(a[1..]);
    }
  }

  lemma {:induction false} LessTransitive(a: string, b: string, c: string)
    requires Less(a, b) && Less(b, c)
    ensures Less(a, c)
  {
    if a != "" && a[0] == b[0] && b[0] == c[0] {
      LessTransitive(a[1..], b[1..], c[1..]);
    }
  }

  lemma {:induction false} LessTotal(a: string, b: string)
    ensures a == b || Less(a, b) || Less(b, a)
  {
    if a != "" && b != "" && a[0] == b[0] {
      LessTotal(a[1..], b[1..]);
      assert a == [a[0]] + a[1..] && b == [b[0]] + b[1..];
    }
  }

  lemma LessAsymmetric(a: string, b: string)
    requires Less(a, b)
    ensures !Less(b, a) && a != b
  {
    LessIrreflexive(a);
    if Less(b, a) {
      LessTransitive(a, b, a);
    }
  }

  /** A common front does not matter. */
  lemma {:induction false} LessCommonFront(p: string, a: string, b: string)
    ensures Less(p + a, p + b) == Less(a, b)
  {
    if p == "" {
      assert p + a == a && p + b == b;
    } else {
      LessCommonFront(p[1..], a, b);
      assert (p + a)[1..] == p[1..] + a && (p + b)[1..] == p[1..] + b;
    }
  }

  /** Strictly increasing, hence without duplicates. */
  predicate Sorted(s: seq<string>) {
    forall i, j :: 0 <= i < j < |s| ==> Less(s[i], s[j])
  }

  lemma SortedNoDuplicates(s: seq<string>, i: nat, j: nat)
    requires Sorted(s) && i < |s| && j < |s| && s[i] == s[j]
    ensures i == j
  {
    LessIrreflexive(s[i]);
  }

  lemma HasMember(s: seq<string>)
    ensures s != [] ==> exists k :: k in s
  {
    if s != [] {
      assert s[0] in s;
    }
  }

  /** A set of keys has one increasing enumeration. */
  lemma {:induction false} SortedUnique(s: seq<string>, t: seq<string>)
    requires Sorted(s) && Sorted(t)
    requires forall k :: k in s <==> k in t
    ensures s == t
  {
    if s == [] {
      HasMember(t);
    } else {
      assert s[0] in t;
      assert t[0] in s;
      var i :| 0 <= i < |s| && s[i] == t[0];
      var j :| 0 <= j < |t| && t[j] == s[0];
      if i != 0 {
        assert Less(s[0], t[0]);
        if j != 0 {
          LessAsymmetric(s[0], t[0]);
        }
        LessIrreflexive(s[0]);
      }
      assert s[0] == t[0];
      forall k
        ensures k in s[1..] <==> k in t[1..]
      {
        LessIrreflexive(s[0]);
        assert k in s <==> k == s[0] || k in s[1..];
        assert k in t <==> k == t[0] || k in t[1..];
      }
      SortedUnique(s[1..], t[1..]);
      assert s == [s[0]] + s[1..] && t == [t[0]] + t[1..];
    }
  }

  /** Every finite set of keys has an increasing enumeration. */
  ghost function SortedKeys(s: set<string>): (r: seq<string>)
    ensures Sorted(r)
    ensures forall k :: k in r <==> k in s
    ensures |r| == |s|
  {
    if s == {} then
      []
    else
      LeastExists(s);
      var m :| IsLeast(m, s);
      var rest := SortedKeys(s - {m});
      assert forall k :: k in s <==> k == m || k in s - {m};
      [m] + rest
  }

  ghost predicate IsLeast(m: string, s: set<string>) {
    m in s && forall k :: k in s && k != m ==> Less(m, k)
  }

  lemma {:induction false} LeastExists(s: set<string>)
    requires s != {}
    ensures exists m :: IsLeast(m, s)
  {
    var x :| x in s;
    var rest := s - {x};
    if rest == {} {
      assert s == {x};
      assert IsLeast(x, s);
    } else {
      LeastExists(rest);
      var m :| IsLeast(m, rest);
      LessTotal(x, m);
      if Less(x, m) {
        forall k | k in s && k != x
          ensures Less(x, k)
        {
          if k != m {
            LessTransitive(x, m, k);
          }
        }
        assert IsLeast(x, s);
      } else {
        assert IsLeast(m, s);
      }
    }
  }

  /** The members below a bound come first. */
  lemma {:induction false} BelowComesFirst(r: seq<string>, l: seq<string>, last: string)
    requires Sorted(r) && Sorted(l)
    requires last in r
    requires forall k :: k in l <==> k in r && Less(k, last)
    ensures l + [last] <= r
    decreases r
  {
    assert r[0] in r;
    if r[0] == last {
      forall k
        ensures k !in l
      {
        if k in l {
          var j :| 0 <= j < |r| && r[j] == k;
          LessAsymmetric(k, last);
          LessIrreflexive(last);
          assert false;
        }
      }
      HasMember(l);
    } else {
      var i :| 0 <= i < |r| && r[i] == last;
      assert Less(r[0], last);
      assert r[0] in l;
      var j :| 0 <= j < |l| && l[j] == r[0];
      HeadIsLeast(r, l[0]);
      LessIrreflexive(r[0]);
      if j > 0 {
        LessAsymmetric(l[0], r[0]);
      }
      assert l[0] == r[0];
      TailMembers(r);
      TailMembers(l);
      BelowComesFirst(r[1..], l[1..], last);
      assert l == [l[0]] + l[1..] && r == [r[0]] + r[1..];
    }
  }

  lemma HeadIsLeast(r: seq<string>, k: string)
    requires Sorted(r) && r != []
    ensures k in r ==> k == r[0] || Less(r[0], k)
  {
  }

  lemma TailMembers(r: seq<string>)
    requires Sorted(r) && r != []
    ensures forall k :: k in r[1..] <==> k in r && k != r[0]
  {
    LessIrreflexive(r[0]);
    forall k
      ensures k in r[1..] <==> k in r && k != r[0]
    {
      assert k in r <==> k == r[0] || k in r[1..];
    }
  }
}
