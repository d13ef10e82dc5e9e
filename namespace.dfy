/**
 * The class-body namespace a metaclass receives: a Python dict from member
 * names to member values. Python dicts have unique keys and iterate in
 * insertion order; assigning to an existing key keeps its position, and
 * assigning to a new key appends it at the end.
 */
module Namespace {
  import opened Wrappers

  type Name = string

  /**
   * What the metaclass observes about a namespace value: whether `callable`
   * holds of it, and whether its `_pbc__isprotected__` attribute is the value
   * True (anything else, including the attribute being absent, reads as false).
   */
  datatype Member = Member(callable: bool, isProtected: bool)

  datatype Entry = Entry(name: Name, member: Member)

  /** A dict as its entries in iteration order. */
  type Dict = seq<Entry>

  function Keys(ns: Dict): (ks: seq<Name>)
    ensures |ks| == |ns|
    ensures forall i :: 0 <= i < |ns| ==> ks[i] == ns[i].name
  {
    if ns == [] then [] else [ns[0].name] + Keys(ns[1..])
  }

  /** The invariant every Python dict keeps. */
  predicate UniqueKeys(ns: Dict) {
    forall i, j :: 0 <= i < j < |ns| ==> ns[i].name != ns[j].name
  }

  /** `ns.get(k)`: the value stored under `k`, if any. */
  function Get(ns: Dict, k: Name): (r: Option<Member>)
    ensures r.None? <==> k !in Keys(ns)
    ensures r.Some? ==> exists i :: 0 <= i < |ns| && ns[i] == Entry(k, r.value)
  {
    if ns == [] then None
    else if ns[0].name == k then Some(ns[0].member)
    else Get(ns[1..], k)
  }

  /** `ns[k] = m`. */
  function Put(ns: Dict, k: Name, m: Member): Dict {
    if ns == [] then [Entry(k, m)]
    else if ns[0].name == k then [Entry(k, m)] + ns[1..]
    else [ns[0]] + Put(ns[1..], k, m)
  }

  /** A dict's tail is a dict without its first key. */
  lemma TailIsDict(ns: Dict)
    requires UniqueKeys(ns) && ns != []
    ensures UniqueKeys(ns[1..])
    ensures Keys(ns) == [ns[0].name] + Keys(ns[1..])
    ensures ns[0].name !in Keys(ns[1..])
  {
    var tail := ns[1..];
    forall i, j | 0 <= i < j < |tail| ensures tail[i].name != tail[j].name {
      assert tail[i] == ns[i + 1] && tail[j] == ns[j + 1];
    }
  }

  lemma {:induction false} KeysAppend(a: Dict, b: Dict)
    ensures Keys(a + b) == Keys(a) + Keys(b)
  {
    assert |Keys(a + b)| == |Keys(a) + Keys(b)|;
    forall i | 0 <= i < |a + b| ensures Keys(a + b)[i] == (Keys(a) + Keys(b))[i] {
      if i >= |a| {
        assert (a + b)[i] == b[i - |a|];
      }
    }
  }

  /** Past a point where `k` does not occur, `Put` leaves the entries alone and may append. */
  lemma PutSuffix(ns: Dict, k: Name, m: Member, n: nat)
    requires UniqueKeys(ns) && n <= |ns|
    requires forall i :: n <= i < |ns| ==> ns[i].name != k
    ensures |Put(ns, k, m)| >= n
    ensures Put(ns, k, m)[n..] == ns[n..] + (if k in Keys(ns) then [] else [Entry(k, m)])
  {
    PutLayout(ns, k, m);
    var r := Put(ns, k, m);
    if k in Keys(ns) {
      assert |r| == |ns|;
      forall i | n <= i < |ns| ensures r[i] == ns[i] {
        assert ns[i].name != k;
      }
      assert r[n..] == ns[n..];
    } else {
      assert r[n..] == ns[n..] + [Entry(k, m)];
    }
  }

  /** In a dict, the value found under a key is the one stored at that key's position. */
  lemma {:induction false} GetAt(ns: Dict, i: nat)
    requires UniqueKeys(ns)
    requires i < |ns|
    ensures Get(ns, ns[i].name) == Some(ns[i].member)
  {
    if i > 0 {
      assert ns[0].name != ns[i].name;
      assert ns[1..][i - 1] == ns[i];
      GetAt(ns[1..], i - 1);
    }
  }

  /** Where `Put` writes: over the key's own entry if present, otherwise at the end. */
  lemma {:induction false} PutLayout(ns: Dict, k: Name, m: Member)
    requires UniqueKeys(ns)
    ensures k in Keys(ns) ==> |Put(ns, k, m)| == |ns|
    ensures k !in Keys(ns) ==> Put(ns, k, m) == ns + [Entry(k, m)]
    ensures forall i :: 0 <= i < |ns| ==>
      Put(ns, k, m)[i] == if ns[i].name == k then Entry(k, m) else ns[i]
  {
    if ns != [] {
      var r, tail := Put(ns, k, m), ns[1..];
      assert UniqueKeys(tail) by {
        forall i, j | 0 <= i < j < |tail| ensures tail[i].name != tail[j].name {
          assert tail[i] == ns[i + 1] && tail[j] == ns[j + 1];
        }
      }
      assert k in Keys(ns) <==> k == ns[0].name || k in Keys(tail) by {
        assert Keys(ns) == [ns[0].name] + Keys(tail);
      }
      if ns[0].name == k {
        forall i | 0 < i < |ns| ensures ns[i].name != k {
          assert ns[0].name != ns[i].name;
        }
      } else {
        PutLayout(tail, k, m);
        forall i | 0 < i < |ns| ensures r[i] == if ns[i].name == k then Entry(k, m) else ns[i] {
          assert tail[i - 1] == ns[i];
          assert r[i] == Put(tail, k, m)[i - 1];
        }
      }
    }
  }

  lemma PutKeepsKeysUnique(ns: Dict, k: Name, m: Member)
    requires UniqueKeys(ns)
    ensures UniqueKeys(Put(ns, k, m))
  {
    PutLayout(ns, k, m);
    var r := Put(ns, k, m);
    forall i, j | 0 <= i < j < |r| ensures r[i].name != r[j].name {
      assert j == |ns| || ns[i].name != ns[j].name;
    }
  }

  lemma PutKeys(ns: Dict, k: Name, m: Member)
    requires UniqueKeys(ns)
    ensures Keys(Put(ns, k, m)) == if k in Keys(ns) then Keys(ns) else Keys(ns) + [k]
  {
    PutLayout(ns, k, m);
  }

  lemma PutGet(ns: Dict, k: Name, m: Member, k': Name)
    requires UniqueKeys(ns)
    ensures Get(Put(ns, k, m), k') == if k' == k then Some(m) else Get(ns, k')
  {
    PutLayout(ns, k, m);
    PutKeepsKeysUnique(ns, k, m);
    PutKeys(ns, k, m);
    var r := Put(ns, k, m);
    if k' == k {
      var t :| 0 <= t < |r| && Keys(r)[t] == k;
      GetAt(r, t);
    } else if k' in Keys(ns) {
      var s :| 0 <= s < |ns| && Keys(ns)[s] == k';
      GetAt(ns, s);
      GetAt(r, s);
    }
  }

  /**
   * `Put` is dict assignment: an existing key keeps its position and gets the
   * new value, a new key is appended, every other key keeps its value, and
   * the keys stay unique.
   */
  lemma PutIsAssignment(ns: Dict, k: Name, m: Member)
    requires UniqueKeys(ns)
    ensures UniqueKeys(Put(ns, k, m))
    ensures Keys(Put(ns, k, m)) == if k in Keys(ns) then Keys(ns) else Keys(ns) + [k]
    ensures k !in Keys(ns) ==> Put(ns, k, m) == ns + [Entry(k, m)]
    ensures |Put(ns, k, m)| >= |ns|
    ensures forall i :: 0 <= i < |ns| ==>
      Put(ns, k, m)[i] == if ns[i].name == k then Entry(k, m) else ns[i]
    ensures forall k' :: Get(Put(ns, k, m), k') == if k' == k then Some(m) else Get(ns, k')
  {
    PutLayout(ns, k, m);
    PutKeepsKeysUnique(ns, k, m);
    PutKeys(ns, k, m);
    forall k' ensures Get(Put(ns, k, m), k') == if k' == k then Some(m) else Get(ns, k') {
      PutGet(ns, k, m, k');
    }
  }
}
