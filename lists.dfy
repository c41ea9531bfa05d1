/**
 * Specifications of the list walks the reservation system performs on its
 * singly linked lists: find the first record with a key, unlink the first
 * record with a key, and the orders in which the loaders build a list.
 *
 * A linked list is modelled by the sequence of its records from the head;
 * `key` picks the field a walk compares with `strcmp`.
 */
module Lists {
  import opened Records

  /** Position of the first record whose key is `k`, or None when there is none. */
  function FirstIndex<T>(s: seq<T>, key: T -> string, k: string): (r: Option<nat>)
    ensures r.Some? ==> r.value < |s| && key(s[r.value]) == k
    decreases |s|
  {
    if s == [] then None
    else if key(s[0]) == k then Some(0)
    else match FirstIndex(s[1..], key, k)
      case None => None
      case Some(i) => Some(i + 1)
  }

  /**
   * The walk that stops at position `i` (the first match, or the end of the
   * list) is what `FirstIndex` describes.
   */
  lemma {:induction false} FirstIndexAt<T>(s: seq<T>, key: T -> string, k: string, i: nat)
    requires i <= |s|
    requires forall j :: 0 <= j < i ==> key(s[j]) != k
    requires i < |s| ==> key(s[i]) == k
    ensures FirstIndex(s, key, k) == if i < |s| then Some(i) else None
    decreases i
  {
    if i > 0 {
      assert forall j :: 0 <= j < i - 1 ==> s[1..][j] == s[j + 1];
      FirstIndexAt(s[1..], key, k, i - 1);
    }
  }

  /** No position is found exactly when no record has the key; a found one is the first match. */
  lemma {:induction false} FirstIndexSpec<T>(s: seq<T>, key: T -> string, k: string)
    ensures FirstIndex(s, key, k).None? <==> forall i :: 0 <= i < |s| ==> key(s[i]) != k
    ensures forall i :: FirstIndex(s, key, k) == Some(i) ==> forall j :: 0 <= j < i ==> key(s[j]) != k
    decreases |s|
  {
    if s != [] && key(s[0]) != k {
      FirstIndexSpec(s[1..], key, k);
      assert forall j :: 1 <= j < |s| ==> s[j] == s[1..][j - 1];
    }
  }

  /** The first record whose key is `k`. */
  function Find<T>(s: seq<T>, key: T -> string, k: string): Option<T>
  {
    match FirstIndex(s, key, k)
    case None => None
    case Some(i) => Some(s[i])
  }

  /** The list after unlinking the first record whose key is `k`. */
  function RemoveFirst<T>(s: seq<T>, key: T -> string, k: string): seq<T>
  {
    match FirstIndex(s, key, k)
    case None => s
    case Some(i) => s[..i] + s[i + 1..]
  }

  /**
   * Reference definition of the same unlinking, one node at a time: keep the
   * head unless it matches, and stop at the first match.
   */
  function RemoveFirstWalk<T>(s: seq<T>, key: T -> string, k: string): seq<T>
    decreases |s|
  {
    if s == [] then []
    else if key(s[0]) == k then s[1..]
    else [s[0]] + RemoveFirstWalk(s[1..], key, k)
  }

  /** The records whose key is not `k`, in list order. */
  function Without<T>(s: seq<T>, key: T -> string, k: string): seq<T>
    decreases |s|
  {
    if s == [] then []
    else (if key(s[0]) == k then [] else [s[0]]) + Without(s[1..], key, k)
  }

  /** How many records have key `k`. */
  function Count<T>(s: seq<T>, key: T -> string, k: string): nat
    decreases |s|
  {
    if s == [] then 0
    else (if key(s[0]) == k then 1 else 0) + Count(s[1..], key, k)
  }

  /**
   * The records a loader obtains, in read order, when it keeps going after a
   * failed read. Each entry is the outcome of one `fscanf` call: the record
   * it filled, or None when it matched fewer fields.
   */
  function Valid<T>(lines: seq<Option<T>>): seq<T>
    decreases |lines|
  {
    if lines == [] then []
    else (if lines[0].Some? then [lines[0].value] else []) + Valid(lines[1..])
  }

  /** The records read before the first failed `fscanf` call (a loader that stops there). */
  function ParsedPrefix<T>(lines: seq<Option<T>>): seq<T>
    decreases |lines|
  {
    if lines == [] || lines[0].None? then []
    else [lines[0].value] + ParsedPrefix(lines[1..])
  }

  function Reverse<T>(s: seq<T>): seq<T>
    decreases |s|
  {
    if s == [] then [] else Reverse(s[1..]) + [s[0]]
  }

  lemma {:induction false} WithoutAppend<T>(a: seq<T>, b: seq<T>, key: T -> string, k: string)
    ensures Without(a + b, key, k) == Without(a, key, k) + Without(b, key, k)
    decreases |a|
  {
    if a != [] {
      assert (a + b)[1..] == a[1..] + b;
      WithoutAppend(a[1..], b, key, k);
    } else {
      assert a + b == b;
    }
  }

  /** Filtering a list that grew by one record at its end. */
  lemma WithoutSnoc<T>(s: seq<T>, x: T, key: T -> string, k: string)
    ensures Without(s + [x], key, k) == Without(s, key, k) + (if key(x) == k then [] else [x])
  {
    WithoutAppend(s, [x], key, k);
    assert [x][1..] == [];
  }

  lemma {:induction false} CountAppend<T>(a: seq<T>, b: seq<T>, key: T -> string, k: string)
    ensures Count(a + b, key, k) == Count(a, key, k) + Count(b, key, k)
    decreases |a|
  {
    if a != [] {
      assert (a + b)[1..] == a[1..] + b;
      CountAppend(a[1..], b, key, k);
    } else {
      assert a + b == b;
    }
  }

  /** No record has key `k` exactly when the count of such records is zero. */
  lemma {:induction false} CountZero<T>(s: seq<T>, key: T -> string, k: string)
    ensures Count(s, key, k) == 0 <==> forall i :: 0 <= i < |s| ==> key(s[i]) != k
    decreases |s|
  {
    if s != [] {
      CountZero(s[1..], key, k);
      assert forall i :: 1 <= i < |s| ==> s[i] == s[1..][i - 1];
    }
  }

  /** Finding returns the first record with the key, and nothing only when no record has it. */
  lemma FindIsFirst<T>(s: seq<T>, key: T -> string, k: string)
    ensures Find(s, key, k).None? <==> Count(s, key, k) == 0
    ensures Find(s, key, k).Some? ==>
      exists i :: 0 <= i < |s| && s[i] == Find(s, key, k).value && key(s[i]) == k &&
        forall j :: 0 <= j < i ==> key(s[j]) != k
  {
    CountZero(s, key, k);
    FirstIndexSpec(s, key, k);
  }

  /**
   * Unlinking the first match leaves every other record in its original
   * order: the records with other keys are exactly those of the old list.
   */
  lemma RemoveFirstKeepsOthers<T>(s: seq<T>, key: T -> string, k: string)
    ensures Without(RemoveFirst(s, key, k), key, k) == Without(s, key, k)
  {
    match FirstIndex(s, key, k)
    case None =>
    case Some(i) =>
      assert s == s[..i] + ([s[i]] + s[i + 1..]);
      WithoutAppend(s[..i], [s[i]] + s[i + 1..], key, k);
      WithoutAppend([s[i]], s[i + 1..], key, k);
      WithoutAppend(s[..i], s[i + 1..], key, k);
      assert Without([s[i]], key, k) == [];
  }

  /**
   * With no match the list is unchanged; with a match exactly one record
   * with that key is gone, it is the first one, and the records before it
   * are untouched.
   */
  lemma RemoveFirstDropsOne<T>(s: seq<T>, key: T -> string, k: string)
    ensures Count(s, key, k) == 0 ==> RemoveFirst(s, key, k) == s
    ensures Count(s, key, k) > 0 <==> FirstIndex(s, key, k).Some?
    ensures forall i :: FirstIndex(s, key, k) == Some(i) ==>
      var r := RemoveFirst(s, key, k);
      |r| == |s| - 1 && Count(r, key, k) == Count(s, key, k) - 1 &&
      r[..i] == s[..i] && r[i..] == s[i + 1..] &&
      multiset(r) + multiset{s[i]} == multiset(s)
  {
    CountZero(s, key, k);
    FirstIndexSpec(s, key, k);
    match FirstIndex(s, key, k)
    case None =>
    case Some(i) =>
      DropAt(s, key, k, i);
  }

  /** Dropping the record at `i`, whose key is `k`, from the list. */
  lemma DropAt<T>(s: seq<T>, key: T -> string, k: string, i: nat)
    requires i < |s| && key(s[i]) == k
    ensures var r := s[..i] + s[i + 1..];
      |r| == |s| - 1 && Count(r, key, k) == Count(s, key, k) - 1 &&
      r[..i] == s[..i] && r[i..] == s[i + 1..] &&
      multiset(r) + multiset{s[i]} == multiset(s)
  {
    var r := s[..i] + s[i + 1..];
    assert s == s[..i] + ([s[i]] + s[i + 1..]);
    CountAppend(s[..i], [s[i]] + s[i + 1..], key, k);
    CountAppend([s[i]], s[i + 1..], key, k);
    CountAppend(s[..i], s[i + 1..], key, k);
    assert Count([s[i]], key, k) == 1;
    assert r[..i] == s[..i];
    assert r[i..] == s[i + 1..];
    calc {
      multiset(s);
      multiset(s[..i] + ([s[i]] + s[i + 1..]));
      multiset(s[..i]) + multiset{s[i]} + multiset(s[i + 1..]);
      multiset(r) + multiset{s[i]};
    }
  }

  /**
   * Filtering out key `k` keeps exactly the records with another key, drops
   * as many records as have key `k`, and changes nothing when none has it.
   */
  lemma {:induction false} WithoutSpec<T>(s: seq<T>, key: T -> string, k: string)
    ensures forall x :: x in Without(s, key, k) <==> x in s && key(x) != k
    ensures |Without(s, key, k)| + Count(s, key, k) == |s|
    ensures Count(s, key, k) == 0 ==> Without(s, key, k) == s
    decreases |s|
  {
    if s != [] {
      WithoutSpec(s[1..], key, k);
      assert s == [s[0]] + s[1..];
    }
  }

  /** Filtering out a key a second time changes nothing. */
  lemma {:induction false} WithoutIdempotent<T>(s: seq<T>, key: T -> string, k: string)
    ensures Without(Without(s, key, k), key, k) == Without(s, key, k)
    decreases |s|
  {
    if s != [] {
      WithoutIdempotent(s[1..], key, k);
      WithoutAppend(if key(s[0]) == k then [] else [s[0]], Without(s[1..], key, k), key, k);
    }
  }

  /** The index-based unlinking agrees with the node-by-node reference walk. */
  lemma {:induction false} RemoveFirstIsWalk<T>(s: seq<T>, key: T -> string, k: string)
    ensures RemoveFirst(s, key, k) == RemoveFirstWalk(s, key, k)
    decreases |s|
  {
    if s != [] && key(s[0]) != k {
      var t := s[1..];
      RemoveFirstIsWalk(t, key, k);
      assert RemoveFirstWalk(s, key, k) == [s[0]] + RemoveFirst(t, key, k);
      match FirstIndex(t, key, k)
      case None =>
        assert FirstIndex(s, key, k).None?;
      case Some(i) =>
        assert FirstIndex(s, key, k) == Some(i + 1);
        assert s[..i + 1] == [s[0]] + t[..i];
        assert s[i + 2..] == t[i + 1..];
    }
  }

  /** Pushing on the head of a list built in reverse. */
  lemma {:induction false} ReversePush<T>(s: seq<T>, x: T)
    ensures Reverse(s + [x]) == [x] + Reverse(s)
    decreases |s|
  {
    assert s + [x] != [];
    if s == [] {
      assert [x][1..] == [];
    } else {
      assert (s + [x])[1..] == s[1..] + [x];
      ReversePush(s[1..], x);
    }
  }

  lemma {:induction false} ReverseAt<T>(s: seq<T>, i: nat)
    requires i < |s|
    ensures |Reverse(s)| == |s| && Reverse(s)[i] == s[|s| - 1 - i]
    decreases |s|
  {
    ReverseLength(s);
    if i < |s| - 1 {
      ReverseAt(s[1..], i);
    }
  }

  lemma {:induction false} ReverseLength<T>(s: seq<T>)
    ensures |Reverse(s)| == |s|
    decreases |s|
  {
    if s != [] {
      ReverseLength(s[1..]);
    }
  }

  /** A record is among the loaded ones exactly when some `fscanf` call produced it. */
  lemma {:induction false} ValidMembers<T>(lines: seq<Option<T>>, x: T)
    ensures x in Valid(lines) <==> Some(x) in lines
    decreases |lines|
  {
    if lines != [] {
      ValidMembers(lines[1..], x);
      assert lines == [lines[0]] + lines[1..];
    }
  }

  lemma {:induction false} ValidAppend<T>(a: seq<Option<T>>, b: seq<Option<T>>)
    ensures Valid(a + b) == Valid(a) + Valid(b)
    decreases |a|
  {
    if a != [] {
      assert (a + b)[1..] == a[1..] + b;
      ValidAppend(a[1..], b);
    } else {
      assert a + b == b;
    }
  }

  /**
   * A loader that stops at the first failed read keeps the records of the
   * reads before it, in read order, and nothing after it.
   */
  lemma {:induction false} ParsedPrefixStopsAtFirstMalformed<T>(lines: seq<Option<T>>, n: nat)
    requires n <= |lines|
    requires forall j :: 0 <= j < n ==> lines[j].Some?
    requires n < |lines| ==> lines[n].None?
    ensures ParsedPrefix(lines) == Valid(lines[..n])
    ensures |ParsedPrefix(lines)| == n
    ensures forall j :: 0 <= j < n ==> ParsedPrefix(lines)[j] == lines[j].value
    decreases n
  {
    if n > 0 {
      ParsedPrefixStopsAtFirstMalformed(lines[1..], n - 1);
      assert lines[..n][1..] == lines[1..][..n - 1];
    }
  }
}
