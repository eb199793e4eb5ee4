/** The two things the handlers do to a document's array of references:
    `push` (blog.comments, comment.replies, reply.likes) and
    `filter(id => id.toString() !== x)` (deleteComment, deleteReply), plus
    what Mongoose's populate keeps of such an array. */
module RefLists {
  import opened Common

  /** How many times `x` occurs in `s`. */
  function Count(s: seq<Id>, x: Id): nat {
    if s == [] then 0 else (if s[0] == x then 1 else 0) + Count(s[1..], x)
  }

  /** `s.push(x)`: no duplicate check. */
  function Push(s: seq<Id>, x: Id): seq<Id> {
    s + [x]
  }

  /** `s.filter(y => y !== x)`: every occurrence of `x` goes. */
  function RemoveAll(s: seq<Id>, x: Id): (r: seq<Id>)
    ensures |r| <= |s|
    ensures forall y :: y in r <==> y in s && y != x
  {
    if s == [] then [] else (if s[0] == x then [] else [s[0]]) + RemoveAll(s[1..], x)
  }

  /** The elements of `s` found among `keys`, in order: what populate keeps
      of an array of references (references to missing documents are dropped). */
  function Present(s: seq<Id>, keys: set<Id>): (r: seq<Id>)
    ensures |r| <= |s|
    ensures forall y :: y in r <==> y in s && y in keys
  {
    if s == [] then [] else (if s[0] in keys then [s[0]] else []) + Present(s[1..], keys)
  }

  lemma {:induction false} CountAppend(s: seq<Id>, t: seq<Id>, y: Id)
    ensures Count(s + t, y) == Count(s, y) + Count(t, y)
  {
    if s == [] {
      assert s + t == t;
    } else {
      assert (s + t)[1..] == s[1..] + t;
      CountAppend(s[1..], t, y);
    }
  }

  /** `x` occurs in `s` exactly when it is counted. */
  lemma {:induction false} CountPositive(s: seq<Id>, x: Id)
    ensures Count(s, x) > 0 <==> x in s
  {
    if s != [] {
      CountPositive(s[1..], x);
      assert x in s <==> s[0] == x || x in s[1..];
    }
  }

  /** A push adds exactly one occurrence of the pushed element and leaves
      every other element's count alone. */
  lemma PushCount(s: seq<Id>, x: Id, y: Id)
    ensures Count(Push(s, x), y) == Count(s, y) + (if x == y then 1 else 0)
  {
    CountAppend(s, [x], y);
    assert [x][1..] == [];
  }

  /** Pushing an element that was absent leaves it there exactly once, at the end. */
  lemma PushFreshOnce(s: seq<Id>, x: Id)
    requires x !in s
    ensures Count(Push(s, x), x) == 1
    ensures Push(s, x)[|s|] == x
  {
    PushCount(s, x, x);
    CountPositive(s, x);
  }

  /** Filtering removes every occurrence of `x` and keeps every other
      element as often as it occurred. */
  lemma {:induction false} RemoveAllCount(s: seq<Id>, x: Id, y: Id)
    ensures Count(RemoveAll(s, x), y) == if y == x then 0 else Count(s, y)
  {
    if s != [] {
      var head := if s[0] == x then [] else [s[0]];
      RemoveAllCount(s[1..], x, y);
      CountAppend(head, RemoveAll(s[1..], x), y);
      if s[0] != x {
        assert head[1..] == [];
      }
    }
  }

  /** Filtering distributes over concatenation: the kept elements stay in
      their original order. */
  lemma {:induction false} RemoveAllAppend(s: seq<Id>, t: seq<Id>, x: Id)
    ensures RemoveAll(s + t, x) == RemoveAll(s, x) + RemoveAll(t, x)
  {
    if s == [] {
      assert s + t == t;
    } else {
      assert (s + t)[1..] == s[1..] + t;
      RemoveAllAppend(s[1..], t, x);
    }
  }

  /** Filtering out an element that does not occur changes nothing. */
  lemma {:induction false} RemoveAllAbsent(s: seq<Id>, x: Id)
    requires x !in s
    ensures RemoveAll(s, x) == s
  {
    if s != [] {
      assert s == [s[0]] + s[1..];
      RemoveAllAbsent(s[1..], x);
    }
  }

  /** Filtering undoes a push of a fresh element. */
  lemma PushThenRemoveAll(s: seq<Id>, x: Id)
    requires x !in s
    ensures RemoveAll(Push(s, x), x) == s
  {
    RemoveAllAppend(s, [x], x);
    RemoveAllAbsent(s, x);
    assert RemoveAll([x], x) == [];
  }

  lemma {:induction false} PresentAppend(s: seq<Id>, t: seq<Id>, keys: set<Id>)
    ensures Present(s + t, keys) == Present(s, keys) + Present(t, keys)
  {
    if s == [] {
      assert s + t == t;
    } else {
      assert (s + t)[1..] == s[1..] + t;
      PresentAppend(s[1..], t, keys);
    }
  }

  /** Resolving the filtered array against a store without `x` gives the
      filtered resolution of the original array. */
  lemma {:induction false} PresentRemoveAll(s: seq<Id>, keys: set<Id>, x: Id)
    ensures Present(RemoveAll(s, x), keys - {x}) == RemoveAll(Present(s, keys), x)
  {
    if s != [] {
      var head := if s[0] == x then [] else [s[0]];
      PresentRemoveAll(s[1..], keys, x);
      PresentAppend(head, RemoveAll(s[1..], x), keys - {x});
      RemoveAllAppend(if s[0] in keys then [s[0]] else [], Present(s[1..], keys), x);
    }
  }
}
