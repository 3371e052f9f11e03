/** Composite keys of the chaincode shim: creation, splitting and range scans. */
module CompositeKeys {
  import opened Lex

  datatype Result<+T> = Ok(value: T) | Err

  const MIN_RUNE: char := '\0'
  const MAX_RUNE: char := '\U{10FFFF}'
  const NAMESPACE: string := [MIN_RUNE]
  const EMPTY_KEY_SUBSTITUTE: string := ['\U{0001}']

  predicate ValidComponent(c: string) {
    forall i :: 0 <= i < |c| ==> c[i] != MIN_RUNE && c[i] != MAX_RUNE
  }

  predicate ValidComponents(cs: seq<string>) {
    forall i :: 0 <= i < |cs| ==> ValidComponent(cs[i])
  }

  /** The components one after the other, each ended by U+0000. */
  function Encode(cs: seq<string>): string {
    if cs == [] then "" else cs[0] + [MIN_RUNE] + Encode(cs[1..])
  }

  function CompositeKey(cs: seq<string>): string {
    NAMESPACE + Encode(cs)
  }

  /** The stretches of s ended by U+0000, when the scan has reached i and the current stretch
      began at start; what follows the last U+0000 is dropped. */
  function Stretches(s: string, start: nat, i: nat): seq<string>
    requires start <= i <= |s|
    decreases |s| - i
  {
    if i == |s| then []
    else if s[i] == MIN_RUNE then [s[start..i]] + Stretches(s, i + 1, i + 1)
    else Stretches(s, start, i + 1)
  }

  function Components(key: string): seq<string> {
    if key == "" then [] else Stretches(key, 1, 1)
  }

  predicate NoMin(s: string, from: nat, to: nat)
    requires to <= |s|
  {
    forall j :: from <= j < to ==> s[j] != MIN_RUNE
  }

  // ---------------------------------------------------------------- creation and splitting

  method ValidateAttribute(c: string) returns (ok: bool)
    ensures ok <==> ValidComponent(c)
  {
    for i := 0 to |c|
      invariant ValidComponent(c[..i])
    {
      if c[i] == MIN_RUNE || c[i] == MAX_RUNE {
        return false;
      }
      assert c[..i + 1] == c[..i] + [c[i]];
    }
    assert c[..|c|] == c;
    return true;
  }

  method CreateCompositeKey(objectType: string, attributes: seq<string>) returns (r: Result<string>)
    ensures r.Ok? <==> ValidComponents([objectType] + attributes)
    ensures r.Ok? ==> r.value == CompositeKey([objectType] + attributes)
  {
    ghost var all := [objectType] + attributes;
    assert all[0] == objectType;
    var ok := ValidateAttribute(objectType);
    if !ok {
      return Err;
    }
    var ck := NAMESPACE + objectType + [MIN_RUNE];
    assert all[..1] == [objectType] && [objectType][1..] == [];
    assert Encode([objectType]) == objectType + [MIN_RUNE];
    for i := 0 to |attributes|
      invariant ValidComponents(all[..i + 1])
      invariant ck == CompositeKey(all[..i + 1])
    {
      assert all[i + 1] == attributes[i];
      ok := ValidateAttribute(attributes[i]);
      if !ok {
        return Err;
      }
      EncodeAppend(all[..i + 1], attributes[i]);
      assert all[..i + 2] == all[..i + 1] + [attributes[i]];
      ck := ck + (attributes[i] + [MIN_RUNE]);
    }
    assert all[..|attributes| + 1] == all;
    return Ok(ck);
  }

  lemma {:induction false} EncodeAppend(cs: seq<string>, c: string)
    ensures Encode(cs + [c]) == Encode(cs) + (c + [MIN_RUNE])
  {
    if cs == [] {
      assert (cs + [c])[1..] == [];
    } else {
      EncodeAppend(cs[1..], c);
      assert (cs + [c])[1..] == cs[1..] + [c];
    }
  }

  /** The source indexes components[0] and panics when the key holds no terminated component. */
  datatype Split = Parts(objectType: string, attributes: seq<string>) | Panic

  function SplitOf(cs: seq<string>): Split {
    if cs == [] then Panic else Parts(cs[0], cs[1..])
  }

  method SplitCompositeKey(key: string) returns (r: Split)
    ensures r == SplitOf(Components(key))
  {
    if key == "" {
      return Panic;
    }
    var start := 1;
    var components: seq<string> := [];
    for i := 1 to |key|
      invariant 1 <= start <= i
      invariant components + Stretches(key, start, i) == Components(key)
    {
      if key[i] == MIN_RUNE {
        components := components + [key[start..i]];
        start := i + 1;
      }
    }
    return SplitOf(components);
  }

  lemma {:induction false} StretchEnds(s: string, start: nat, i: nat, end: nat)
    requires start <= i <= end < |s| && s[end] == MIN_RUNE && NoMin(s, i, end)
    ensures Stretches(s, start, i) == [s[start..end]] + Stretches(s, end + 1, end + 1)
    decreases end - i
  {
    if i < end {
      StretchEnds(s, start, i + 1, end);
    }
  }

  /** Splitting undoes creation. */
  lemma SplitUndoesCreate(cs: seq<string>)
    requires ValidComponents(cs)
    ensures Components(CompositeKey(cs)) == cs
  {
    ScanEncoded(NAMESPACE, cs);
  }

  /** In terms of the two calls: splitting a created key gives back its object type and attributes, in
      their order. */
  lemma SplitGivesBack(objectType: string, attributes: seq<string>)
    requires ValidComponents([objectType] + attributes)
    ensures SplitOf(Components(CompositeKey([objectType] + attributes))) == Parts(objectType, attributes)
  {
    SplitUndoesCreate([objectType] + attributes);
  }

  lemma {:induction false} ScanEncoded(front: string, cs: seq<string>)
    requires ValidComponents(cs)
    ensures Stretches(front + Encode(cs), |front|, |front|) == cs
    decreases |cs|
  {
    if cs != [] {
      var s := front + Encode(cs);
      var front' := front + cs[0] + [MIN_RUNE];
      assert s == front' + Encode(cs[1..]);
      var end := |front| + |cs[0]|;
      assert s[|front|..end] == cs[0];
      StretchEnds(s, |front|, |front|, end);
      ScanEncoded(front', cs[1..]);
    }
  }

  lemma CreateInjective(cs: seq<string>, ds: seq<string>)
    requires ValidComponents(cs) && ValidComponents(ds)
    requires CompositeKey(cs) == CompositeKey(ds)
    ensures cs == ds
  {
    SplitUndoesCreate(cs);
    SplitUndoesCreate(ds);
  }

  /** Creation undoes splitting exactly on the keys that lie in the namespace and end in U+0000. */
  lemma CreateUndoesSplit(key: string)
    ensures CompositeKey(Components(key)) == key
            <==> key != "" && key[0] == MIN_RUNE && key[|key| - 1] == MIN_RUNE
  {
    if key != "" {
      EncodeStretches(key, 1, 1);
      var e := CompositeKey(Components(key));
      assert e[1..] == Encode(Stretches(key, 1, 1));
      assert key == [key[0]] + key[1..] && e == [e[0]] + e[1..];
    }
  }

  lemma {:induction false} EncodeStretches(s: string, start: nat, i: nat)
    requires start <= i <= |s| && NoMin(s, start, i)
    ensures Encode(Stretches(s, start, i)) == s[start..] <==> start == |s| || s[|s| - 1] == MIN_RUNE
    decreases |s| - i
  {
    if i == |s| {
    } else if s[i] == MIN_RUNE {
      EncodeStretches(s, i + 1, i + 1);
      var rest := Stretches(s, i + 1, i + 1);
      var e := s[start..i] + [MIN_RUNE] + Encode(rest);
      assert ([s[start..i]] + rest)[1..] == rest;
      assert s[start..] == s[start..i] + [MIN_RUNE] + s[i + 1..];
      assert e[i + 1 - start..] == Encode(rest) && s[start..][i + 1 - start..] == s[i + 1..];
    } else {
      EncodeStretches(s, start, i + 1);
    }
  }

  // ---------------------------------------------------------------- range scans

  /** A scan over a partial composite key finds a composite key exactly when the components
      asked for are the first components of the key. The key built from just these components
      is among the results, although the comment on the source function says otherwise. */
  lemma PartialScan(p: seq<string>, cs: seq<string>)
    requires ValidComponents(p) && ValidComponents(cs)
    ensures InRange(CompositeKey(cs), CompositeKey(p), CompositeKey(p) + [MAX_RUNE]) <==> p <= cs
  {
    var s, k := CompositeKey(p), CompositeKey(cs);
    EncodeBelowMax(cs);
    ScanIsPrefix(s, k);
    assert s <= k <==> Encode(p) <= Encode(cs) by {
      assert s[1..] == Encode(p) && k[1..] == Encode(cs);
      assert s == [s[0]] + s[1..] && k == [k[0]] + k[1..];
    }
    EncodePrefix(p, cs);
  }

  lemma {:induction false} EncodeBelowMax(cs: seq<string>)
    requires ValidComponents(cs)
    ensures MAX_RUNE !in Encode(cs)
  {
    if cs != [] {
      EncodeBelowMax(cs[1..]);
    }
  }

  lemma {:induction false} ScanIsPrefix(s: string, k: string)
    requires MAX_RUNE !in k
    ensures InRange(k, s, s + [MAX_RUNE]) <==> s <= k
  {
    if s <= k {
      var rest := k[|s|..];
      assert k == s + rest && s == s + "";
      LessCommonFront(s, "", rest);
      LessCommonFront(s, rest, [MAX_RUNE]);
      if rest != "" {
        assert rest[0] == k[|s|];
        assert rest[0] as int <= 0x10FFFF;
      }
    } else {
      OutsidePrefix(s, k);
    }
  }

  lemma {:induction false} OutsidePrefix(s: string, k: string)
    requires !(s <= k)
    ensures Less(k, s) || Less(s + [MAX_RUNE], k)
    ensures !InRange(k, s, s + [MAX_RUNE])
  {
    if k != "" && s[0] == k[0] {
      assert s == [s[0]] + s[1..] && k == [k[0]] + k[1..];
      OutsidePrefix(s[1..], k[1..]);
      assert (s + [MAX_RUNE])[1..] == s[1..] + [MAX_RUNE];
    }
    if Less(k, s) {
      LessAsymmetric(k, s);
    } else {
      LessAsymmetric(s + [MAX_RUNE], k);
    }
  }

  lemma {:induction false} EncodePrefix(p: seq<string>, cs: seq<string>)
    requires ValidComponents(p) && ValidComponents(cs)
    ensures Encode(p) <= Encode(cs) <==> p <= cs
  {
    if p == [] {
    } else if cs == [] {
      assert |Encode(p)| > 0;
    } else {
      var a, b := Encode(p), Encode(cs);
      if p[0] == cs[0] {
        var n := |p[0]| + 1;
        assert a[n..] == Encode(p[1..]) && b[n..] == Encode(cs[1..]);
        assert a[..n] == b[..n];
        assert a == a[..n] + a[n..] && b == b[..n] + b[n..];
        EncodePrefix(p[1..], cs[1..]);
        assert p == [p[0]] + p[1..] && cs == [cs[0]] + cs[1..];
      } else if a <= b {
        FirstComponent(p[0], Encode(p[1..]), cs[0], Encode(cs[1..]));
      }
    }
  }

  lemma {:induction false} FirstComponent(x: string, u: string, y: string, v: string)
    requires ValidComponent(x) && ValidComponent(y)
    requires x + [MIN_RUNE] + u <= y + [MIN_RUNE] + v
    ensures x == y
  {
    var a, b := x + [MIN_RUNE] + u, y + [MIN_RUNE] + v;
    assert a[0] == b[0];
    if x != "" && y != "" {
      assert a[1..] == x[1..] + [MIN_RUNE] + u && b[1..] == y[1..] + [MIN_RUNE] + v;
      FirstComponent(x[1..], u, y[1..], v);
      assert x == [x[0]] + x[1..] && y == [y[0]] + y[1..];
    }
  }

  predicate InNamespace(key: string) {
    key != "" && key[0] == MIN_RUNE
  }

  /** GetStateByRange: the bounds sent to the peer. No composite key lies between them, and
      they lose no non-empty simple key of the range that was asked for. */
  method RangeBounds(startKey: string, endKey: string) returns (r: Result<(string, string)>)
    ensures r.Ok? <==> !InNamespace(startKey) && !InNamespace(endKey)
    ensures r.Ok? ==> forall k :: InNamespace(k) ==> !InRange(k, r.value.0, r.value.1)
    ensures r.Ok? ==> forall k :: k != "" && !InNamespace(k) ==>
      (InRange(k, r.value.0, r.value.1) <==> InRange(k, startKey, endKey))
  {
    var start := if startKey == "" then EMPTY_KEY_SUBSTITUTE else startKey;
    if (start != "" && start[0] == NAMESPACE[0]) || (endKey != "" && endKey[0] == NAMESPACE[0]) {
      return Err;
    }
    forall k | k != "" && !InNamespace(k)
      ensures Leq(EMPTY_KEY_SUBSTITUTE, k) && Leq("", k)
    {
      assert EMPTY_KEY_SUBSTITUTE[1..] == "";
      if k[1..] == "" {
        assert k == [k[0]];
      }
      assert k[0] as int >= 1;
    }
    return Ok((start, endKey));
  }
}
