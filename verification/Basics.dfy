/** Small vocabulary shared by the models: optional values, results and bytes. */
module Basics {
  datatype Option<+T> = None | Some(value: T)

  datatype Result<+T> = Ok(value: T) | Err(message: string)

  newtype byte = x: int | 0 <= x < 256

  type Bytes = seq<byte>

  function Min(a: int, b: int): int { if a <= b then a else b }

  function Max(a: int, b: int): int { if a >= b then a else b }

  /** Concatenation of a sequence of sequences, in order. */
  function Flatten<T>(parts: seq<seq<T>>): seq<T>
  {
    if parts == [] then [] else parts[0] + Flatten(parts[1..])
  }

  lemma {:induction false} FlattenSnoc<T>(parts: seq<seq<T>>, last: seq<T>)
    ensures Flatten(parts + [last]) == Flatten(parts) + last
  {
    if parts == [] {
      assert parts + [last] == [last];
    } else {
      assert (parts + [last])[1..] == parts[1..] + [last];
      FlattenSnoc(parts[1..], last);
    }
  }

  /** The first error of a row of outcomes. */
  function FirstError(outcomes: seq<Result<()>>): Option<string>
  {
    if outcomes == [] then None
    else if outcomes[0].Err? then Some(outcomes[0].message)
    else FirstError(outcomes[1..])
  }

  lemma {:induction false} FirstErrorAt(outcomes: seq<Result<()>>, n: nat)
    requires n <= |outcomes| && forall i | 0 <= i < n :: outcomes[i].Ok?
    ensures n == |outcomes| ==> FirstError(outcomes) == None
    ensures n < |outcomes| && outcomes[n].Err? ==> FirstError(outcomes) == Some(outcomes[n].message)
    decreases n
  {
    if n > 0 { FirstErrorAt(outcomes[1..], n - 1); }
  }

  lemma {:induction false} FirstErrorIsOne(outcomes: seq<Result<()>>)
    ensures FirstError(outcomes).Some? ==>
              exists i :: 0 <= i < |outcomes| && outcomes[i] == Err(FirstError(outcomes).value)
  {
    if outcomes != [] {
      if outcomes[0].Err? {
        assert outcomes[0] == Err(FirstError(outcomes).value);
      } else if FirstError(outcomes).Some? {
        FirstErrorIsOne(outcomes[1..]);
        var i :| 0 <= i < |outcomes[1..]| && outcomes[1..][i] == Err(FirstError(outcomes[1..]).value);
        assert outcomes[i + 1] == Err(FirstError(outcomes).value);
      }
    }
  }

  lemma ConcatSplits<T>(a: seq<T>, b: seq<T>, n: nat)
    requires n <= |a|
    ensures (a + b)[..n] == a[..n] && (a + b)[n..] == a[n..] + b
  {
  }

  lemma ConcatAssociates<T>(a: seq<T>, b: seq<T>, c: seq<T>)
    ensures a + (b + c) == (a + b) + c
  {
  }

  function One(b: bool): nat { if b then 1 else 0 }

  function Find<K, V>(index: map<K, V>, key: K): Option<V> { if key in index then Some(index[key]) else None }

  /** How often `x` occurs. */
  function Count<T(==)>(s: seq<T>, x: T): nat
  {
    if s == [] then 0 else Count(s[..|s| - 1], x) + One(s[|s| - 1] == x)
  }

  lemma CountSnoc<T>(s: seq<T>, last: T, x: T)
    ensures Count(s + [last], x) == Count(s, x) + One(last == x)
  {
    assert (s + [last])[..|s|] == s;
  }

  lemma {:induction false} CountConcat<T>(a: seq<T>, b: seq<T>, x: T)
    ensures Count(a + b, x) == Count(a, x) + Count(b, x)
    decreases |b|
  {
    if b == [] {
      assert a + b == a;
    } else {
      assert (a + b)[..|a + b| - 1] == a + b[..|b| - 1];
      CountConcat(a, b[..|b| - 1], x);
    }
  }

  lemma {:induction false} CountMember<T>(s: seq<T>, x: T)
    ensures Count(s, x) > 0 <==> x in s
  {
    if s != [] {
      CountMember(s[..|s| - 1], x);
      assert s == s[..|s| - 1] + [s[|s| - 1]];
    }
  }
}
