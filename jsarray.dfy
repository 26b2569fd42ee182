/** The JavaScript Array.prototype operations the graph editor is built from:
    `find` (as Option), `indexOf`, `splice(start, 1)` and `filter` by a
    membership test, over immutable sequences. */
module JsArray {

  /** A value, or `undefined`. */
  datatype Option<T> = None | Some(value: T)

  /** `s.indexOf(x)`: the first position holding `x` (compared by identity
      for objects), or -1 when `x` does not occur. */
  function IndexOf<T(==)>(s: seq<T>, x: T): (r: int)
    ensures -1 <= r < |s|
    ensures r == -1 <==> x !in s
    ensures 0 <= r ==> s[r] == x && x !in s[..r]
  {
    if |s| == 0 then -1
    else if s[0] == x then 0
    else
      var r := IndexOf(s[1..], x);
      assert r != -1 ==> s[..r + 1] == [s[0]] + s[1..][..r];
      if r == -1 then -1 else r + 1
  }

  /** The position `splice(start, 1)` acts on: a negative `start` counts back
      from the end, and the result is clamped to `[0, len]`. */
  function SpliceStart(len: nat, start: int): (k: nat)
    ensures k <= len
    ensures 0 <= start <= len ==> k == start
    ensures start < 0 && 0 <= len as int + start ==> k == len as int + start
  {
    if start < 0 then (if len + start < 0 then 0 else len + start)
    else if start > len then len
    else start
  }

  /** The array left behind by `s.splice(start, 1)`. */
  function SpliceOne<T>(s: seq<T>, start: int): (r: seq<T>)
    ensures 0 <= start < |s| ==> r == s[..start] + s[start + 1..]
    ensures start == -1 && s != [] ==> r == s[..|s| - 1]
    ensures start == -1 && s == [] ==> r == []
    ensures |s| <= start ==> r == s
  {
    var k := SpliceStart(|s|, start);
    if k < |s| then s[..k] + s[k + 1..] else s
  }

  /** `s.filter(x => !bad.includes(x))`: the elements outside `bad`, in
      their original order. */
  function Without<T>(s: seq<T>, bad: set<T>): (r: seq<T>)
    ensures forall x {:trigger x in r} :: x in r ==> x in s && x !in bad
    ensures forall x {:trigger x in r} :: x in s && x !in bad ==> x in r
    ensures |r| <= |s|
  {
    if s == [] then []
    else (if s[0] in bad then [] else [s[0]]) + Without(s[1..], bad)
  }

  /** `s.filter(x => good.includes(x))`: the elements inside `good`, in
      their original order. */
  function Only<T>(s: seq<T>, good: set<T>): (r: seq<T>)
    ensures forall x {:trigger x in r} :: x in r ==> x in s && x in good
    ensures forall x {:trigger x in r} :: x in s && x in good ==> x in r
    ensures |r| <= |s|
  {
    if s == [] then []
    else (if s[0] in good then [s[0]] else []) + Only(s[1..], good)
  }

  /** The set of elements of `s`, for `includes` tests. */
  function Elements<T>(s: seq<T>): (r: set<T>)
    ensures forall x :: x in r ==> x in s
    ensures forall x :: x in s ==> x in r
  {
    set x | x in s
  }

  /** Removing each element of `xs` in turn with `s.splice(s.indexOf(x), 1)`.
      Each step removes exactly one element while any remain (an absent one
      makes `indexOf` -1, which removes the last), and none is added. */
  function SpliceEach<T(==)>(s: seq<T>, xs: seq<T>): (r: seq<T>)
    ensures |r| == if |xs| <= |s| then |s| - |xs| else 0
    ensures forall x {:trigger x in r} :: x in r ==> x in s
  {
    if xs == [] then s else SpliceEach(SpliceOne(s, IndexOf(s, xs[0])), xs[1..])
  }

  /** An element absent from `u` is found by `indexOf` right after `u`
      when it heads what follows. */
  lemma {:induction false} IndexOfAfter<T>(u: seq<T>, t: seq<T>, y: T)
    requires y !in u && t != [] && t[0] == y
    ensures IndexOf(u + t, y) == |u|
  {
    var r := IndexOf(u + t, y);
    assert (u + t)[..|u|] == u;
    assert (u + t)[|u|] == y;
  }

  /** Splicing out, one at a time, the elements of `t` that lie in `bad`
      leaves the prefix `u` (which holds none of them) followed by the
      filtered `t`; repeated elements need no special treatment, because
      `indexOf` always meets the next occurrence first. */
  lemma {:induction false} SpliceEachFrom<T>(u: seq<T>, t: seq<T>, bad: set<T>)
    requires forall x :: x in u ==> x !in bad
    ensures SpliceEach(u + t, Only(t, bad)) == u + Without(t, bad)
    decreases |t|
  {
    if t == [] {
      assert u + t == u;
    } else if t[0] in bad {
      SpliceHead(u, t, bad);
      SpliceEachFrom(u, t[1..], bad);
    } else {
      SkipHead(u, t, bad);
      SpliceEachFrom(u + [t[0]], t[1..], bad);
    }
  }

  /** One step of SpliceEachFrom: when `t` starts with an element of `bad`,
      the first splice removes exactly that element. */
  lemma {:induction false} SpliceHead<T>(u: seq<T>, t: seq<T>, bad: set<T>)
    requires forall x :: x in u ==> x !in bad
    requires t != [] && t[0] in bad
    ensures SpliceEach(u + t, Only(t, bad)) == SpliceEach(u + t[1..], Only(t[1..], bad))
    ensures Without(t, bad) == Without(t[1..], bad)
  {
    var y, rest := t[0], t[1..];
    assert t == [y] + rest;
    assert Only(t, bad) == [y] + Only(rest, bad);
    IndexOfAfter(u, t, y);
    assert SpliceOne(u + t, |u|) == u + rest by {
      assert (u + t)[..|u|] == u;
      assert (u + t)[|u| + 1..] == rest;
    }
  }

  /** The other step of SpliceEachFrom: an element outside `bad` at the
      head of `t` moves into the untouched prefix. */
  lemma {:induction false} SkipHead<T>(u: seq<T>, t: seq<T>, bad: set<T>)
    requires t != [] && t[0] !in bad
    ensures SpliceEach(u + t, Only(t, bad)) == SpliceEach((u + [t[0]]) + t[1..], Only(t[1..], bad))
    ensures (u + [t[0]]) + Without(t[1..], bad) == u + Without(t, bad)
  {
    assert Only(t, bad) == Only(t[1..], bad);
    assert u + t == (u + [t[0]]) + t[1..];
    var w := Without(t[1..], bad);
    assert Without(t, bad) == [t[0]] + w;
    assert (u + [t[0]]) + w == u + ([t[0]] + w);
  }

  /** The splice loop of removeVertex equals a filter: removing every
      element of `s` that lies in `bad`, one `splice(indexOf(x), 1)` at a
      time and in order, leaves exactly `s` filtered by `bad`. */
  lemma SpliceEachRemovesAll<T>(s: seq<T>, bad: set<T>)
    ensures SpliceEach(s, Only(s, bad)) == Without(s, bad)
  {
    SpliceEachFrom([], s, bad);
    assert [] + s == s;
  }

  /** Filtering by two sets that agree on the elements of `s` gives the same
      result. */
  lemma {:induction false} WithoutAgreeing<T>(s: seq<T>, x: set<T>, y: set<T>)
    requires forall e :: e in s ==> (e in x <==> e in y)
    ensures Without(s, x) == Without(s, y)
  {
    if s != [] {
      WithoutAgreeing(s[1..], x, y);
    }
  }

  /** Filtering a sequence none of whose elements is in `bad` changes nothing. */
  lemma {:induction false} WithoutNone<T>(s: seq<T>, bad: set<T>)
    requires forall e :: e in s ==> e !in bad
    ensures Without(s, bad) == s
  {
    if s != [] {
      WithoutNone(s[1..], bad);
      assert Without(s, bad) == [s[0]] + Without(s[1..], bad);
    }
  }

  /** Filtering distributes over concatenation. */
  lemma {:induction false} WithoutAppend<T>(s: seq<T>, t: seq<T>, bad: set<T>)
    ensures Without(s + t, bad) == Without(s, bad) + Without(t, bad)
  {
    if s != [] {
      assert (s + t)[1..] == s[1..] + t;
      WithoutAppend(s[1..], t, bad);
    }
    else {
      assert s + t == t;
    }
  }

  /** One step of the filter that keeps the elements outside `bad`. */
  lemma WithoutCons<T>(x: T, s: seq<T>, bad: set<T>)
    ensures Without([x] + s, bad) == (if x in bad then [] else [x]) + Without(s, bad)
  {
    assert ([x] + s)[1..] == s;
  }

  /** Filtering out a single element that `bad` holds, between elements it
      does not hold, removes just that element. */
  lemma WithoutOne<T>(front: seq<T>, x: T, back: seq<T>, bad: set<T>)
    requires x in bad
    requires forall e :: e in front ==> e !in bad
    requires forall e :: e in back ==> e !in bad
    ensures Without(front + [x] + back, bad) == front + back
  {
    assert Without(front + [x] + back, bad) == Without(front, bad) + Without([x] + back, bad) by {
      assert front + [x] + back == front + ([x] + back);
      WithoutAppend(front, [x] + back, bad);
    }
    assert Without([x] + back, bad) == Without(back, bad) by {
      WithoutCons(x, back, bad);
    }
    assert Without(front, bad) == front by {
      WithoutNone(front, bad);
    }
    assert Without(back, bad) == back by {
      WithoutNone(back, bad);
    }
  }

  /** Keeping the elements of `good` distributes over concatenation. */
  lemma {:induction false} OnlyAppend<T>(s: seq<T>, t: seq<T>, good: set<T>)
    ensures Only(s + t, good) == Only(s, good) + Only(t, good)
  {
    if s != [] {
      assert (s + t)[1..] == s[1..] + t;
      OnlyAppend(s[1..], t, good);
    }
    else {
      assert s + t == t;
    }
  }

  /** Keeping the elements of `good` from a sequence inside it changes
      nothing. */
  lemma {:induction false} OnlyAll<T>(s: seq<T>, good: set<T>)
    requires forall e :: e in s ==> e in good
    ensures Only(s, good) == s
  {
    if s != [] {
      OnlyAll(s[1..], good);
      assert Only(s, good) == [s[0]] + Only(s[1..], good);
    }
  }

  /** Keeping the elements of `good` from a sequence outside it leaves
      nothing. */
  lemma {:induction false} OnlyNone<T>(s: seq<T>, good: set<T>)
    requires forall e :: e in s ==> e !in good
    ensures Only(s, good) == []
  {
    if s != [] {
      OnlyNone(s[1..], good);
    }
  }
}
