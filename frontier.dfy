// The Redis list "links" that the discovery spiders fill and the content
// spider drains: its elements, head first, and the key's time to live.

module Frontier {
  import opened Wrappers

  /** `settings.SECOND_IN_ONE_MONTH`: thirty days in seconds. */
  const SecondInOneMonth := 30 * 86400

  /** What a run of `LPUSH key v` for each `v` of `vs`, in order, leaves in a
      list that held `l`. */
  function LPushAll(l: seq<string>, vs: seq<string>): seq<string>
    decreases vs
  {
    if vs == [] then l else LPushAll([vs[0]] + l, vs[1..])
  }

  /** The values in reverse order. */
  function Reverse(vs: seq<string>): (r: seq<string>)
    ensures |r| == |vs|
  {
    if vs == [] then [] else Reverse(vs[1..]) + [vs[0]]
  }

  /** Pushing values one by one to the head leaves them in reverse order in
      front of what the list held. */
  lemma {:induction false} LPushAllReverses(l: seq<string>, vs: seq<string>)
    ensures LPushAll(l, vs) == Reverse(vs) + l
    decreases vs
  {
    if vs != [] {
      LPushAllReverses([vs[0]] + l, vs[1..]);
      assert Reverse(vs[1..]) + ([vs[0]] + l) == (Reverse(vs[1..]) + [vs[0]]) + l;
    }
  }

  /** Pushing one more value puts it at the head. */
  lemma {:induction false} LPushAllSnoc(l: seq<string>, vs: seq<string>, v: string)
    ensures LPushAll(l, vs + [v]) == [v] + LPushAll(l, vs)
  {
    LPushAllReverses(l, vs + [v]);
    LPushAllReverses(l, vs);
    ReverseSnoc(vs, v);
  }

  lemma {:induction false} ReverseSnoc(vs: seq<string>, v: string)
    ensures Reverse(vs + [v]) == [v] + Reverse(vs)
  {
    if vs == [] {
      assert [] + [v] == [v];
    } else {
      assert (vs + [v])[1..] == vs[1..] + [v];
      ReverseSnoc(vs[1..], v);
    }
  }

  lemma TakeSnoc<T>(s: seq<T>, i: nat)
    requires i < |s|
    ensures s[..i + 1] == s[..i] + [s[i]]
  {
  }

  lemma TakeDrop<T>(s: seq<T>, i: nat)
    requires i <= |s|
    ensures s == s[..i] + s[i..]
  {
  }

  lemma TakeAll<T>(s: seq<T>)
    ensures s[..|s|] == s
  {
  }

  lemma Prepend(v: string, a: seq<string>, b: seq<string>)
    ensures [v] + (a + b) == ([v] + a) + b
  {
  }

  /** The last value pushed is at the head, and the list grows by exactly
      the number of values pushed. */
  lemma LPushAllHead(l: seq<string>, vs: seq<string>)
    requires vs != []
    ensures |LPushAll(l, vs)| == |vs| + |l|
    ensures LPushAll(l, vs)[0] == vs[|vs| - 1]
  {
    LPushAllReverses(l, vs);
    assert vs == vs[..|vs| - 1] + [vs[|vs| - 1]];
    ReverseSnoc(vs[..|vs| - 1], vs[|vs| - 1]);
  }

  /** The values a producer loop pushes when it visits `xs` in order and
      pushes `f(c, x).value` for each element `x` that `f` gives one for,
      skipping the others. */
  function Kept<C, T>(f: (C, T) -> Option<string>, c: C, xs: seq<T>): (r: seq<string>)
    ensures |r| <= |xs|
  {
    if xs == [] then []
    else
      var n := |xs| - 1;
      Kept(f, c, xs[..n]) + (if f(c, xs[n]).Some? then [f(c, xs[n]).value] else [])
  }

  /** Visiting one more element pushes its value, if it has one. */
  lemma KeptStep<C, T>(f: (C, T) -> Option<string>, c: C, xs: seq<T>, i: nat)
    requires i < |xs|
    ensures Kept(f, c, xs[..i + 1])
      == Kept(f, c, xs[..i]) + (if f(c, xs[i]).Some? then [f(c, xs[i]).value] else [])
  {
    assert xs[..i + 1][..i] == xs[..i];
  }

  /** Every kept value is the value of some element, and the value of every
      element that has one is kept. */
  lemma {:induction false} KeptSpec<C, T>(f: (C, T) -> Option<string>, c: C, xs: seq<T>)
    ensures forall k :: 0 <= k < |Kept(f, c, xs)| ==>
      exists i :: 0 <= i < |xs| && f(c, xs[i]) == Some(Kept(f, c, xs)[k])
    ensures forall i :: 0 <= i < |xs| && f(c, xs[i]).Some? ==> f(c, xs[i]).value in Kept(f, c, xs)
  {
    if xs != [] {
      var n := |xs| - 1;
      var init := xs[..n];
      KeptSpec(f, c, init);
      var r := Kept(f, c, xs);
      var r0 := Kept(f, c, init);
      assert r[..|r0|] == r0;
      forall k | 0 <= k < |r|
        ensures exists i :: 0 <= i < |xs| && f(c, xs[i]) == Some(r[k])
      {
        if k < |r0| {
          assert r[k] == r0[k];
          var i :| 0 <= i < |init| && f(c, init[i]) == Some(r0[k]);
          assert xs[i] == init[i];
          assert f(c, xs[i]) == Some(r[k]);
        } else {
          assert f(c, xs[n]) == Some(r[k]);
        }
      }
      forall i | 0 <= i < |xs| && f(c, xs[i]).Some?
        ensures f(c, xs[i]).value in r
      {
        if i < n {
          assert init[i] == xs[i];
          var k :| 0 <= k < |r0| && r0[k] == f(c, xs[i]).value;
          assert r[k] == r0[k];
        } else {
          assert r[|r| - 1] == f(c, xs[i]).value;
        }
      }
      assert forall k :: 0 <= k < |r| ==> exists i :: 0 <= i < |xs| && f(c, xs[i]) == Some(r[k]);
    } else {
      assert Kept(f, c, xs) == [];
    }
  }

  /** The values a producer loop pushes when it visits `xs` in order, pushes
      `f(c, x).value` for each element and stops at the first element `f`
      gives no value for. */
  function Leading<C, T>(f: (C, T) -> Option<string>, c: C, xs: seq<T>): (r: seq<string>)
    ensures |r| <= |xs|
  {
    if xs == [] then []
    else
      match f(c, xs[0])
      case None => []
      case Some(v) => [v] + Leading(f, c, xs[1..])
  }

  /** The values pushed are those of the longest prefix of elements that all
      have one, in order: the k-th value is the k-th element's, and the
      element after them, if any, has none. */
  lemma {:induction false} LeadingSpec<C, T>(f: (C, T) -> Option<string>, c: C, xs: seq<T>)
    ensures forall k :: 0 <= k < |Leading(f, c, xs)| ==> f(c, xs[k]) == Some(Leading(f, c, xs)[k])
    ensures |Leading(f, c, xs)| < |xs| ==> f(c, xs[|Leading(f, c, xs)|]).None?
  {
    if xs != [] && f(c, xs[0]).Some? {
      LeadingSpec(f, c, xs[1..]);
      var r := Leading(f, c, xs);
      var r1 := Leading(f, c, xs[1..]);
      assert r == [f(c, xs[0]).value] + r1;
      forall k | 0 <= k < |r| ensures f(c, xs[k]) == Some(r[k]) {
        if k > 0 {
          assert r[k] == r1[k - 1];
          assert xs[k] == xs[1..][k - 1];
        }
      }
      if |r| < |xs| {
        assert xs[|r|] == xs[1..][|r1|];
      }
    }
  }

  /** After elements that all have a value, one more with a value is pushed
      last. */
  lemma {:induction false} LeadingSnoc<C, T>(f: (C, T) -> Option<string>, c: C, xs: seq<T>, x: T)
    requires forall j :: 0 <= j < |xs| ==> f(c, xs[j]).Some?
    requires f(c, x).Some?
    ensures Leading(f, c, xs + [x]) == Leading(f, c, xs) + [f(c, x).value]
  {
    if xs == [] {
      assert [x][1..] == [];
    } else {
      assert (xs + [x])[1..] == xs[1..] + [x];
      assert forall j :: 0 <= j < |xs[1..]| ==> xs[1..][j] == xs[j + 1];
      LeadingSnoc(f, c, xs[1..], x);
    }
  }

  /** After elements that all have a value, an element without one ends the
      pushes, whatever follows it. */
  lemma {:induction false} LeadingStop<C, T>(f: (C, T) -> Option<string>, c: C, xs: seq<T>, ys: seq<T>)
    requires forall j :: 0 <= j < |xs| ==> f(c, xs[j]).Some?
    requires ys != [] && f(c, ys[0]).None?
    ensures Leading(f, c, xs + ys) == Leading(f, c, xs)
  {
    if xs == [] {
      assert [] + ys == ys;
    } else {
      assert (xs + ys)[1..] == xs[1..] + ys;
      assert forall j :: 0 <= j < |xs[1..]| ==> xs[1..][j] == xs[j + 1];
      LeadingStop(f, c, xs[1..], ys);
    }
  }

  /** Visiting one more element that has a value pushes it last. */
  lemma LeadingStep<C, T>(f: (C, T) -> Option<string>, c: C, xs: seq<T>, i: nat)
    requires i < |xs| && f(c, xs[i]).Some?
    requires forall j :: 0 <= j < i ==> f(c, xs[j]).Some?
    ensures Leading(f, c, xs[..i + 1]) == Leading(f, c, xs[..i]) + [f(c, xs[i]).value]
  {
    assert xs[..i + 1] == xs[..i] + [xs[i]];
    assert forall j :: 0 <= j < |xs[..i]| ==> xs[..i][j] == xs[j];
    LeadingSnoc(f, c, xs[..i], xs[i]);
  }

  /** Reaching an element without a value, the pushes made so far are all
      there will be. */
  lemma LeadingStopAt<C, T>(f: (C, T) -> Option<string>, c: C, xs: seq<T>, i: nat)
    requires i < |xs| && f(c, xs[i]).None?
    requires forall j :: 0 <= j < i ==> f(c, xs[j]).Some?
    ensures Leading(f, c, xs) == Leading(f, c, xs[..i])
  {
    assert xs == xs[..i] + xs[i..];
    assert forall j :: 0 <= j < |xs[..i]| ==> xs[..i][j] == xs[j];
    LeadingStop(f, c, xs[..i], xs[i..]);
  }

  /** The key "links" of the Redis database. */
  class LinkList {
    /** LRANGE links 0 -1. */
    var entries: seq<string>
    /** The time to live set on the key, `None` while it has none. */
    var ttl: Option<int>

    /** A key that does not exist yet. */
    constructor ()
      ensures entries == [] && ttl == None
    {
      entries := [];
      ttl := None;
    }

    /** LPUSH links value. */
    method LPush(value: string)
      modifies this
      ensures entries == [value] + old(entries)
      ensures ttl == old(ttl)
    {
      entries := [value] + entries;
    }

    /** EXPIRE links seconds: re-arms the key's time to live, whatever was
        left of it; a key that does not exist (an empty list) is unaffected. */
    method Expire(seconds: int)
      requires seconds > 0
      modifies this
      ensures entries == old(entries)
      ensures ttl == if entries == [] then old(ttl) else Some(seconds)
    {
      if entries != [] {
        ttl := Some(seconds);
      }
    }

    /** One producer step: `lpush("links", value)` then
        `expire("links", SECOND_IN_ONE_MONTH)`. */
    method PushAndExpire(value: string)
      modifies this
      ensures entries == [value] + old(entries)
      ensures ttl == Some(SecondInOneMonth)
    {
      LPush(value);
      Expire(SecondInOneMonth);
    }

    /** The loop of a discovery spider's `parse` that visits `xs` in order
        and runs the producer step for every element `f` makes a payload of,
        skipping the others. */
    method PushKept<C, T>(f: (C, T) -> Option<string>, c: C, xs: seq<T>)
      modifies this
      ensures entries == Reverse(Kept(f, c, xs)) + old(entries)
      ensures ttl == if Kept(f, c, xs) == [] then old(ttl) else Some(SecondInOneMonth)
    {
      var i := 0;
      while i < |xs|
        invariant 0 <= i <= |xs|
        invariant entries == Reverse(Kept(f, c, xs[..i])) + old(entries)
        invariant ttl == if Kept(f, c, xs[..i]) == [] then old(ttl) else Some(SecondInOneMonth)
      {
        ghost var before := Kept(f, c, xs[..i]);
        KeptStep(f, c, xs, i);
        var v := f(c, xs[i]);
        if v.Some? {
          PushAndExpire(v.value);
          ReverseSnoc(before, v.value);
          Prepend(v.value, Reverse(before), old(entries));
        } else {
          assert before + [] == before;
        }
        i := i + 1;
      }
      TakeAll(xs);
    }

    /** The loop of a discovery spider's `parse` that visits `xs` in order
        and runs the producer step for each element's payload, until an
        element `f` makes none of, which raises: `raised` reports it, and the
        pushes made before it stay. */
    method PushLeading<C, T>(f: (C, T) -> Option<string>, c: C, xs: seq<T>) returns (raised: bool)
      modifies this
      ensures entries == Reverse(Leading(f, c, xs)) + old(entries)
      ensures ttl == if Leading(f, c, xs) == [] then old(ttl) else Some(SecondInOneMonth)
      ensures raised <==> exists j :: 0 <= j < |xs| && f(c, xs[j]).None?
    {
      var i := 0;
      while i < |xs|
        invariant 0 <= i <= |xs|
        invariant forall j :: 0 <= j < i ==> f(c, xs[j]).Some?
        invariant entries == Reverse(Leading(f, c, xs[..i])) + old(entries)
        invariant ttl == if Leading(f, c, xs[..i]) == [] then old(ttl) else Some(SecondInOneMonth)
      {
        var v := f(c, xs[i]);
        if v.None? {
          LeadingStopAt(f, c, xs, i);
          return true;
        }
        ghost var before := Leading(f, c, xs[..i]);
        LeadingStep(f, c, xs, i);
        PushAndExpire(v.value);
        ReverseSnoc(before, v.value);
        Prepend(v.value, Reverse(before), old(entries));
        i := i + 1;
      }
      TakeAll(xs);
      return false;
    }
  }
}
