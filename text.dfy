/** Text helpers shared by the statement builders: separator joins and character counts. */
module Text {
  import opened Wrappers

  /** The parts in order, with `sep` between consecutive parts (the source's `separator` idiom). */
  function Join(sep: string, parts: seq<string>): string
    decreases |parts|
  {
    if |parts| == 0 then ""
    else if |parts| == 1 then parts[0]
    else parts[0] + sep + Join(sep, parts[1..])
  }

  /** Appending one more part to a join appends the separator and the part: the step a builder loop takes. */
  lemma {:induction false} JoinSnoc(sep: string, parts: seq<string>, p: string)
    ensures Join(sep, parts + [p]) == if parts == [] then p else Join(sep, parts) + sep + p
    decreases |parts|
  {
    if |parts| <= 1 {
    } else {
      assert (parts + [p])[1..] == parts[1..] + [p];
      JoinSnoc(sep, parts[1..], p);
    }
  }

  /** Proof helper: regrouping a three-part concatenation, which other proofs call to keep their cost down. */
  lemma AppendAssoc3(a: string, b: string, c: string)
    ensures a + b + c == a + (b + c)
  {
  }

  /** Proof helper: regrouping a four-part concatenation (the verifier does not regroup long ones by itself). */
  lemma AppendAssoc4(a: string, b: string, c: string, d: string)
    ensures a + b + c + d == a + (b + c + d)
  {
  }

  /** The number of occurrences of `c` in `s`. */
  function Count(s: string, c: char): nat
  {
    if s == [] then 0 else (if s[0] == c then 1 else 0) + Count(s[1..], c)
  }

  lemma {:induction false} CountConcat(a: string, b: string, c: char)
    ensures Count(a + b, c) == Count(a, c) + Count(b, c)
  {
    if a == [] {
      assert a + b == b;
    } else {
      assert (a + b)[1..] == a[1..] + b;
      CountConcat(a[1..], b, c);
    }
  }

  /** A character that does not occur in `s` is counted zero times. */
  lemma {:induction false} CountAbsent(s: string, c: char)
    requires c !in s
    ensures Count(s, c) == 0
  {
    if s != [] {
      assert c !in s[1..];
      CountAbsent(s[1..], c);
    }
  }

  /** Appending text free of `c` adds no occurrence of `c`. */
  lemma CountAppendAbsent(a: string, b: string, c: char)
    requires c !in b
    ensures Count(a + b, c) == Count(a, c)
  {
    CountConcat(a, b, c);
    CountAbsent(b, c);
  }

  /** Proof helper: the arithmetic step `CountJoin` needs. */
  lemma MulSucc(n: nat, k: nat)
    ensures n * (k + 1) == n * k + n
  {
  }

  /** A join whose separator lacks `c` and whose parts each hold `n` of `c` holds `n` per part. */
  lemma {:induction false} CountJoin(sep: string, parts: seq<string>, c: char, n: nat)
    requires c !in sep
    requires forall i :: 0 <= i < |parts| ==> Count(parts[i], c) == n
    ensures Count(Join(sep, parts), c) == n * |parts|
    decreases |parts|
  {
    if |parts| > 1 {
      CountAbsent(sep, c);
      CountConcat(parts[0], sep, c);
      CountConcat(parts[0] + sep, Join(sep, parts[1..]), c);
      CountJoin(sep, parts[1..], c, n);
      MulSucc(n, |parts[1..]|);
    }
  }

  /** A join of parts free of `c` with a separator free of `c` is free of `c`. */
  lemma {:induction false} JoinAbsent(sep: string, parts: seq<string>, c: char)
    requires c !in sep
    requires forall i :: 0 <= i < |parts| ==> c !in parts[i]
    ensures c !in Join(sep, parts)
    decreases |parts|
  {
    if |parts| > 1 {
      JoinAbsent(sep, parts[1..], c);
    }
  }

  /** The first position of `c` in `s`, if it occurs. */
  function IndexOf(s: string, c: char): (r: Option<nat>)
    ensures r.Some? ==> r.value < |s| && s[r.value] == c && c !in s[..r.value]
    ensures r.None? ==> c !in s
  {
    if s == [] then None
    else if s[0] == c then Some(0)
    else match IndexOf(s[1..], c)
      case None => None
      case Some(k) => Some(k + 1)
  }

  /** The first `c` after a stretch free of `c` is found right after that stretch. */
  lemma {:induction false} IndexOfAfter(a: string, c: char, b: string)
    requires c !in a
    ensures IndexOf(a + [c] + b, c) == Some(|a|)
  {
    var s := a + [c] + b;
    assert s[|a|] == c;
    assert s[..|a|] == a;
  }
}
