/** Splitting a sequence at a separator, and the "newest first, blanks dropped"
    view of the resulting parts.  This is the plain reading that both the tail
    reader of the audit log and the stdio transport must agree with. */
module Lines {

  /** The parts of `s` between separators: always one more than there are
      separators, so the empty sequence has one empty part. */
  function Split<T(==)>(s: seq<T>, sep: T): (parts: seq<seq<T>>)
    ensures |parts| >= 1
  {
    if s == [] then [[]]
    else if s[0] == sep then [[]] + Split(s[1..], sep)
    else
      var rest := Split(s[1..], sep);
      [[s[0]] + rest[0]] + rest[1..]
  }

  /** Joining with the separator undoes Split. */
  function Join<T>(parts: seq<seq<T>>, sep: T): seq<T>
    requires |parts| >= 1
  {
    if |parts| == 1 then parts[0] else parts[0] + [sep] + Join(parts[1..], sep)
  }

  /** Split is the inverse of Join on separator-free parts, so it is fully
      determined: it neither invents nor loses an element. */
  lemma {:induction false} SplitIsInverseOfJoin<T>(s: seq<T>, sep: T)
    ensures Join(Split(s, sep), sep) == s
    ensures forall p :: p in Split(s, sep) ==> sep !in p
  {
    if s != [] {
      var rest := Split(s[1..], sep);
      SplitIsInverseOfJoin(s[1..], sep);
      if s[0] == sep {
        assert Split(s, sep)[1..] == rest;
        assert [s[0]] + s[1..] == s;
      } else {
        var head := [s[0]] + rest[0];
        assert Split(s, sep)[1..] == rest[1..];
        if |rest| > 1 {
          assert head + [sep] + Join(rest[1..], sep)
              == [s[0]] + (rest[0] + [sep] + Join(rest[1..], sep));
        }
        assert sep !in head;
      }
    }
  }

  lemma {:induction false} SplitWithoutSeparator<T>(s: seq<T>, sep: T)
    requires sep !in s
    ensures Split(s, sep) == [s]
  {
    if s != [] {
      SplitWithoutSeparator(s[1..], sep);
      assert [s[0]] + s[1..] == s;
    }
  }

  lemma SplitCons<T>(x: T, s: seq<T>, sep: T)
    ensures Split([x] + s, sep) == if x == sep then [[]] + Split(s, sep)
                                   else [[x] + Split(s, sep)[0]] + Split(s, sep)[1..]
  {
    assert ([x] + s)[1..] == s;
  }

  /** Reading backwards: prepending `a` to `s` only disturbs the first part of
      `s`, so it is enough to carry that first part over to the next read. */
  lemma {:induction false} SplitWithCarry<T>(a: seq<T>, s: seq<T>, sep: T)
    ensures Split(a + s, sep) == Split(a + Split(s, sep)[0], sep) + Split(s, sep)[1..]
  {
    var carry, tail := Split(s, sep)[0], Split(s, sep)[1..];
    if a == [] {
      SplitIsInverseOfJoin(s, sep);
      SplitWithoutSeparator(carry, sep);
      assert a + s == s && a + carry == carry;
    } else {
      var x, b := a[0], a[1..];
      SplitWithCarry(b, s, sep);
      assert a + s == [x] + (b + s) && a + carry == [x] + (b + carry);
      SplitCons(x, b + s, sep);
      SplitCons(x, b + carry, sep);
      ConsOfConcat(x, Split(b + carry, sep), tail, sep);
    }
  }

  /** Putting an element in front of the first of some parts leaves the later ones alone. */
  lemma ConsOfConcat<T>(x: T, p: seq<seq<T>>, q: seq<seq<T>>, sep: T)
    requires |p| >= 1
    ensures (p + q)[0] == p[0] && (p + q)[1..] == p[1..] + q
    ensures [[]] + (p + q) == [[]] + p + q
    ensures [[x] + p[0]] + (p[1..] + q) == [[x] + p[0]] + p[1..] + q
  {
  }

  /** Reading forwards: a separator cuts the reading in two. */
  lemma {:induction false} SplitAtSeparator<T>(a: seq<T>, s: seq<T>, sep: T)
    ensures Split(a + [sep] + s, sep) == Split(a, sep) + Split(s, sep)
  {
    if a == [] {
      assert a + [sep] + s == [sep] + s;
      SplitCons(sep, s, sep);
    } else {
      var x, b := a[0], a[1..];
      SplitAtSeparator(b, s, sep);
      assert a + [sep] + s == [x] + (b + [sep] + s) && a == [x] + b;
      SplitCons(x, b + [sep] + s, sep);
      SplitCons(x, b, sep);
      ConsOfConcat(x, Split(b, sep), Split(s, sep), sep);
    }
  }

  /** The first n elements, or all of them when there are fewer. */
  function Take<T>(s: seq<T>, n: nat): seq<T> {
    if |s| <= n then s else s[..n]
  }

  /** The elements after the first n. */
  function Drop<T>(s: seq<T>, n: nat): seq<T> {
    if |s| <= n then [] else s[n..]
  }

  lemma TailOfConcat<T>(a: seq<T>, b: seq<T>)
    requires a != []
    ensures (a + b)[0] == a[0] && (a + b)[1..] == a[1..] + b
  {
  }

  lemma Assoc<T>(a: seq<T>, b: seq<T>, c: seq<T>)
    ensures a + b + c == a + (b + c)
  {
  }
}
