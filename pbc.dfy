/**
 * Protected Base Classes: a metaclass that, when a class is created, collects
 * the names of its bases' protected methods, refuses a class body that
 * redeclares one of them, adds the body's own protected methods, and installs
 * an attribute-assignment guard that refuses writes to protected names.
 */
module Pbc {
  import opened Wrappers
  import opened Namespace

  /** The class attribute that holds a class's protected-name list. */
  const ListKey: Name := "_pbc__protected_functions__"
  /** The attribute-assignment hook the metaclass always installs. */
  const SetattrKey: Name := "__setattr__"

  const MessagePrefix: string := "Cannot overwrite member-function '"
  const MessageSuffix: string := "' as it is protected!"

  // ---------------------------------------------------------------------------
  // The error
  // ---------------------------------------------------------------------------

  /** The only error kind: an attempt to overwrite the protected member `name`. */
  datatype ProtectedFunction = ProtectedFunction(name: Name)

  /** The exception's text. */
  function Message(e: ProtectedFunction): string {
    MessagePrefix + e.name + MessageSuffix
  }

  /** Reads the member name back out of an exception text, if it has that form. */
  function ParseMessage(s: string): (r: Option<Name>)
    ensures r.Some? ==> |r.value| + |MessagePrefix| + |MessageSuffix| == |s|
  {
    if |s| >= |MessagePrefix| + |MessageSuffix|
       && s[..|MessagePrefix|] == MessagePrefix
       && s[|s| - |MessageSuffix|..] == MessageSuffix
    then Some(s[|MessagePrefix|..|s| - |MessageSuffix|])
    else None
  }

  /** The message names the member, and it is the only text that names it. */
  lemma MessageNamesMember(e: ProtectedFunction, s: string)
    ensures ParseMessage(Message(e)) == Some(e.name)
    ensures ParseMessage(s) == Some(e.name) ==> s == Message(e)
  {
    var m := Message(e);
    assert m[..|MessagePrefix|] == MessagePrefix;
    assert m[|m| - |MessageSuffix|..] == MessageSuffix;
    assert m[|MessagePrefix|..|m| - |MessageSuffix|] == e.name;
    if ParseMessage(s) == Some(e.name) {
      assert s == s[..|MessagePrefix|] + s[|MessagePrefix|..|s| - |MessageSuffix|] + s[|s| - |MessageSuffix|..];
    }
  }

  // ---------------------------------------------------------------------------
  // The assignment guard
  // ---------------------------------------------------------------------------

  /** What the wrapped `__setattr__` does with `target.name = value`. */
  datatype Decision<V> = Reject(error: ProtectedFunction) | Forward(name: Name, value: V)

  /**
   * The wrapper's decision, given the protected list read from the target at
   * call time (`None` when the target has no such attribute): refuse exactly
   * the listed names, and pass every other write on unchanged.
   */
  function Guard<V>(protected: Option<seq<Name>>, name: Name, value: V): (d: Decision<V>)
    ensures d.Reject? <==> protected.Some? && name in protected.value
    ensures d.Reject? ==> d.error == ProtectedFunction(name)
    ensures d.Forward? ==> d.name == name && d.value == value
  {
    match protected
    case None => Forward(name, value)
    case Some(p) => if name in p then Reject(ProtectedFunction(name)) else Forward(name, value)
  }

  // ---------------------------------------------------------------------------
  // The marker
  // ---------------------------------------------------------------------------

  /** What marking does to the observed record of a value. */
  function Protect(m: Member): (r: Member)
    ensures r.isProtected
    ensures r.callable == m.callable
  {
    m.(isProtected := true)
  }

  // ---------------------------------------------------------------------------
  // The class factory, as functions
  // ---------------------------------------------------------------------------

  /** What a base contributes: its list, or nothing when it carries none. */
  function Contribution(base: Option<seq<Name>>): seq<Name> {
    match base
    case None => []
    case Some(p) => p
  }

  /** The inherited list: the bases' lists concatenated in declaration order. */
  function Inherited(bases: seq<Option<seq<Name>>>): seq<Name> {
    if bases == [] then [] else Contribution(bases[0]) + Inherited(bases[1..])
  }

  /** The fresh list stored under `ListKey` is not callable. */
  const ListValue: Member := Member(false, false)

  /** The default `setattribute` hook; `wraps` copies its empty `__dict__`, so it is unflagged. */
  const DefaultSetter: Member := Member(true, false)

  /** The wrapper around a user `__setattr__`: a function, carrying over the original's flag. */
  function Wrapped(m: Member): (r: Member)
    ensures r.callable
    ensures r.isProtected == m.isProtected
  {
    Member(true, m.isProtected)
  }

  /** The hook installed under `__setattr__`: the user's wrapped, or the default. */
  function SetterFor(user: Option<Member>): Member {
    match user
    case Some(m) => Wrapped(m)
    case None => DefaultSetter
  }

  /** The namespace the metaclass passes on: the list key set, and `__setattr__` wrapped or added. */
  function Prepare(ns: Dict): Dict {
    var withList := Put(ns, ListKey, ListValue);
    Put(withList, SetattrKey, SetterFor(Get(withList, SetattrKey)))
  }

  /** What `Prepare` does to an entry already in the body. */
  function Adjust(e: Entry): Entry {
    if e.name == ListKey then Entry(ListKey, ListValue)
    else if e.name == SetattrKey then Entry(SetattrKey, Wrapped(e.member))
    else e
  }

  function AdjustAll(ns: Dict): (r: Dict)
    ensures |r| == |ns|
    ensures forall i :: 0 <= i < |ns| ==> r[i] == Adjust(ns[i])
  {
    seq(|ns|, i requires 0 <= i < |ns| => Adjust(ns[i]))
  }

  /** An entry whose name the scan appends: a callable whose flag is True. */
  predicate Marks(m: Member) {
    m.callable && m.isProtected
  }

  /** The names of the marked entries, in namespace order. */
  function Marked(ns: Dict): (r: seq<Name>)
    ensures |r| <= |ns|
    ensures forall n :: n in r <==> exists i :: 0 <= i < |ns| && ns[i].name == n && Marks(ns[i].member)
  {
    if ns == [] then []
    else
      var rest := Marked(ns[1..]);
      assert forall i :: 0 < i < |ns| ==> ns[1..][i - 1] == ns[i];
      if Marks(ns[0].member) then [ns[0].name] + rest else rest
  }

  /** The position of the first entry whose name is in `p`, if there is one. */
  function FirstIn(ns: Dict, p: seq<Name>): (r: Option<nat>)
    ensures r.Some? ==> r.value < |ns| && ns[r.value].name in p
    ensures r.Some? ==> forall j :: 0 <= j < r.value ==> ns[j].name !in p
    ensures r.None? ==> forall j :: 0 <= j < |ns| ==> ns[j].name !in p
  {
    if ns == [] then None
    else if ns[0].name in p then Some(0)
    else
      match FirstIn(ns[1..], p)
      case None => None
      case Some(i) =>
        assert forall j :: 0 < j <= i + 1 ==> ns[1..][j - 1] == ns[j];
        Some(i + 1)
  }

  /**
   * The scan over the namespace in iteration order: fail on the first name
   * already in the accumulated list, otherwise append the name of every
   * marked entry to that list.
   */
  function Scan(ns: Dict, acc: seq<Name>): (r: Result<seq<Name>, ProtectedFunction>)
    ensures r.Ok? ==> acc <= r.value
    ensures r.Err? ==> r.error.name in Keys(ns)
  {
    if ns == [] then Ok(acc)
    else if ns[0].name in acc then Err(ProtectedFunction(ns[0].name))
    else Scan(ns[1..], if Marks(ns[0].member) then acc + [ns[0].name] else acc)
  }

  /**
   * The same decision made in two passes: first refuse the first namespace
   * name that is inherited, then append the marked names.
   */
  function TwoPass(ns: Dict, inherited: seq<Name>): Result<seq<Name>, ProtectedFunction> {
    match FirstIn(ns, inherited)
    case Some(i) => Err(ProtectedFunction(ns[i].name))
    case None => Ok(inherited + Marked(ns))
  }

  /** The whole factory: the new class's protected list, or the error that aborts it. */
  function BuildList(bases: seq<Option<seq<Name>>>, ns: Dict): Result<seq<Name>, ProtectedFunction> {
    Scan(Prepare(ns), Inherited(bases))
  }

  // ---------------------------------------------------------------------------
  // Properties of the inherited list
  // ---------------------------------------------------------------------------

  /** Concatenating the lists of two runs of bases is the list of the joined run. */
  lemma {:induction false} InheritedAppend(a: seq<Option<seq<Name>>>, b: seq<Option<seq<Name>>>)
    ensures Inherited(a + b) == Inherited(a) + Inherited(b)
  {
    if a == [] {
      assert a + b == b;
    } else {
      assert (a + b)[1..] == a[1..] + b;
      InheritedAppend(a[1..], b);
    }
  }

  // ---------------------------------------------------------------------------
  // Properties of the prepared namespace
  // ---------------------------------------------------------------------------

  lemma KeysDiffer()
    ensures ListKey != SetattrKey
  {
    assert |ListKey| != |SetattrKey|;
  }

  /** The entries `Prepare` appends: the list key, then `__setattr__`, each only when absent. */
  function Appended(ns: Dict): Dict {
    (if ListKey in Keys(ns) then [] else [Entry(ListKey, ListValue)])
    + (if SetattrKey in Keys(ns) then [] else [Entry(SetattrKey, DefaultSetter)])
  }

  /** How `Prepare` writes: first the list key, then `__setattr__`, by dict assignment. */
  lemma PrepareSteps(ns: Dict)
    requires UniqueKeys(ns)
    ensures var w := Put(ns, ListKey, ListValue);
      && UniqueKeys(w)
      && (ListKey in Keys(ns) ==> |w| == |ns|)
      && (ListKey !in Keys(ns) ==> w == ns + [Entry(ListKey, ListValue)])
      && (forall i :: 0 <= i < |ns| ==> w[i] == if ns[i].name == ListKey then Entry(ListKey, ListValue) else ns[i])
      && (SetattrKey in Keys(w) <==> SetattrKey in Keys(ns))
      && Get(w, SetattrKey) == Get(ns, SetattrKey)
      && Prepare(ns) == Put(w, SetattrKey, SetterFor(Get(ns, SetattrKey)))
  {
    KeysDiffer();
    PutLayout(ns, ListKey, ListValue);
    PutKeepsKeysUnique(ns, ListKey, ListValue);
    PutKeys(ns, ListKey, ListValue);
    PutGet(ns, ListKey, ListValue, SetattrKey);
  }

  /** A body entry stays at its position, adjusted. */
  lemma PrepareAt(ns: Dict, i: nat)
    requires UniqueKeys(ns) && i < |ns|
    ensures i < |Prepare(ns)| && Prepare(ns)[i] == Adjust(ns[i])
  {
    KeysDiffer();
    PrepareSteps(ns);
    var w := Put(ns, ListKey, ListValue);
    var m := SetterFor(Get(ns, SetattrKey));
    PutLayout(w, SetattrKey, m);
    if ns[i].name == SetattrKey {
      GetAt(ns, i);
    }
  }

  /** After the body's entries come exactly the appended ones. */
  lemma PrepareBeyond(ns: Dict)
    requires UniqueKeys(ns)
    ensures |Prepare(ns)| >= |ns| && Prepare(ns)[|ns|..] == Appended(ns)
  {
    KeysDiffer();
    PrepareSteps(ns);
    var w := Put(ns, ListKey, ListValue);
    PutSuffix(ns, ListKey, ListValue, |ns|);
    assert ns[|ns|..] == [];
    var m := SetterFor(Get(ns, SetattrKey));
    PutSuffix(w, SetattrKey, m, |ns|);
  }

  /**
   * The prepared namespace keeps the body's entries in place, with the list
   * key overwritten by the fresh list and a user `__setattr__` replaced by its
   * wrapper, and appends the list key and the default `__setattr__` when absent.
   */
  lemma PrepareShape(ns: Dict)
    requires UniqueKeys(ns)
    ensures Prepare(ns) == AdjustAll(ns) + Appended(ns)
  {
    PrepareBeyond(ns);
    var r := Prepare(ns);
    forall i | 0 <= i < |ns| ensures r[i] == AdjustAll(ns)[i] {
      PrepareAt(ns, i);
    }
    assert r == r[..|ns|] + r[|ns|..];
    assert r[..|ns|] == AdjustAll(ns);
  }

  /** The prepared namespace is a dict again. */
  lemma PrepareUnique(ns: Dict)
    requires UniqueKeys(ns)
    ensures UniqueKeys(Prepare(ns))
  {
    var w := Put(ns, ListKey, ListValue);
    PutKeepsKeysUnique(ns, ListKey, ListValue);
    PutKeepsKeysUnique(w, SetattrKey, SetterFor(Get(w, SetattrKey)));
  }

  /** `Prepare` renames nothing. */
  lemma KeysAdjusted(ns: Dict)
    ensures Keys(AdjustAll(ns)) == Keys(ns)
  {
    assert |Keys(AdjustAll(ns))| == |Keys(ns)|;
  }

  /** The appended entries carry the list key and `__setattr__`, each when the body lacks it. */
  lemma AppendedKey(ns: Dict, k: Name)
    ensures k in Keys(Appended(ns)) <==>
      (k == ListKey && ListKey !in Keys(ns)) || (k == SetattrKey && SetattrKey !in Keys(ns))
  {
    var l := if ListKey in Keys(ns) then [] else [Entry(ListKey, ListValue)];
    var s := if SetattrKey in Keys(ns) then [] else [Entry(SetattrKey, DefaultSetter)];
    KeysAppend(l, s);
  }

  /** The prepared namespace holds the body's keys, the list key and `__setattr__`, and no other. */
  lemma PrepareHasKey(ns: Dict, k: Name)
    requires UniqueKeys(ns)
    ensures k in Keys(Prepare(ns)) <==> k in Keys(ns) || k == ListKey || k == SetattrKey
  {
    PrepareShape(ns);
    KeysAppend(AdjustAll(ns), Appended(ns));
    KeysAdjusted(ns);
    AppendedKey(ns, k);
  }

  /** Splitting a namespace splits its marked names. */
  lemma {:induction false} MarkedAppend(a: Dict, b: Dict)
    ensures Marked(a + b) == Marked(a) + Marked(b)
  {
    if a == [] {
      assert a + b == b;
    } else {
      assert (a + b)[1..] == a[1..] + b;
      MarkedAppend(a[1..], b);
    }
  }

  /** The names the scan can append are the marked names of the body as `Prepare` leaves it. */
  lemma MarkedPrepared(ns: Dict)
    requires UniqueKeys(ns)
    ensures Marked(Prepare(ns)) == Marked(AdjustAll(ns))
  {
    PrepareShape(ns);
    MarkedAppend(AdjustAll(ns), Appended(ns));
  }

  /**
   * A body name is collected when its entry carries a True flag and is
   * callable; never the list key, whose value is replaced by the list; and
   * `__setattr__` whenever the user's hook is flagged, since its wrapper is a
   * function that carries the flag over.
   */
  lemma MarkedAdjusted(ns: Dict, n: Name)
    ensures n in Marked(AdjustAll(ns)) <==>
      exists i :: 0 <= i < |ns| && ns[i].name == n && n != ListKey && ns[i].member.isProtected
                  && (ns[i].member.callable || n == SetattrKey)
  {
    var a := AdjustAll(ns);
    if n in Marked(a) {
      var i :| 0 <= i < |a| && a[i].name == n && Marks(a[i].member);
      assert a[i] == Adjust(ns[i]);
    }
    if exists i :: 0 <= i < |ns| && ns[i].name == n && n != ListKey && ns[i].member.isProtected
                   && (ns[i].member.callable || n == SetattrKey) {
      var i :| 0 <= i < |ns| && ns[i].name == n && n != ListKey && ns[i].member.isProtected
               && (ns[i].member.callable || n == SetattrKey);
      assert a[i] == Adjust(ns[i]);
      assert Marks(a[i].member);
    }
  }

  // ---------------------------------------------------------------------------
  // The scan checks the inherited list only
  // ---------------------------------------------------------------------------

  /**
   * Because keys are unique, and a name is appended only after its own entry
   * was checked, checking against the growing list is checking against the
   * inherited list: names the scan appended never match a later key.
   */
  lemma {:induction false} ScanWithOwn(ns: Dict, inherited: seq<Name>, own: seq<Name>)
    requires UniqueKeys(ns)
    requires forall n :: n in own ==> n !in Keys(ns)
    ensures Scan(ns, inherited + own) ==
      match FirstIn(ns, inherited)
      case Some(i) => Err(ProtectedFunction(ns[i].name))
      case None => Ok(inherited + own + Marked(ns))
  {
    if ns == [] {
      assert inherited + own + Marked(ns) == inherited + own;
    } else {
      var e, tail := ns[0], ns[1..];
      TailIsDict(ns);
      assert e.name !in own;
      if e.name in inherited {
        assert Scan(ns, inherited + own) == Err(ProtectedFunction(e.name));
      } else {
        var own' := if Marks(e.member) then own + [e.name] else own;
        ScanWithOwn(tail, inherited, own');
        assert inherited + own' == (if Marks(e.member) then (inherited + own) + [e.name] else inherited + own);
        assert Scan(ns, inherited + own) == Scan(tail, inherited + own');
        match FirstIn(tail, inherited) {
          case Some(i) =>
            assert FirstIn(ns, inherited) == Some(i + 1);
            assert tail[i] == ns[i + 1];
          case None =>
            assert FirstIn(ns, inherited) == None;
            assert Marked(ns) == (if Marks(e.member) then [e.name] else []) + Marked(tail);
            assert inherited + own' + Marked(tail) == inherited + own + Marked(ns);
        }
      }
    }
  }

  /** The one-pass scan of the source equals the two-pass reading (check, then collect). */
  lemma ScanIsTwoPass(ns: Dict, inherited: seq<Name>)
    requires UniqueKeys(ns)
    ensures Scan(ns, inherited) == TwoPass(ns, inherited)
  {
    ScanWithOwn(ns, inherited, []);
    assert inherited + [] == inherited;
  }

  // ---------------------------------------------------------------------------
  // What class creation promises
  // ---------------------------------------------------------------------------

  /**
   * Creation succeeds exactly when neither a body key nor the list key nor
   * `__setattr__` is inherited, and then the class's list is the inherited
   * list followed by the body's marked names in body order.
   */
  lemma BuildSucceeds(bases: seq<Option<seq<Name>>>, body: Dict)
    requires UniqueKeys(body)
    ensures BuildList(bases, body).Ok? <==>
      && (forall k :: k in Keys(body) ==> k !in Inherited(bases))
      && ListKey !in Inherited(bases)
      && SetattrKey !in Inherited(bases)
    ensures BuildList(bases, body).Ok? ==> BuildList(bases, body).value == Inherited(bases) + Marked(AdjustAll(body))
  {
    PrepareUnique(body);
    forall k ensures k in Keys(Prepare(body)) <==> k in Keys(body) || k == ListKey || k == SetattrKey {
      PrepareHasKey(body, k);
    }
    MarkedPrepared(body);
    var ns, inh := Prepare(body), Inherited(bases);
    ScanIsTwoPass(ns, inh);
    if FirstIn(ns, inh).Some? {
      assert ns[FirstIn(ns, inh).value].name in Keys(ns);
    } else {
      forall k | k in Keys(ns) ensures k !in inh {
        var t :| 0 <= t < |ns| && Keys(ns)[t] == k;
      }
    }
  }

  /** Position `i` holds the first name of `ns` that is in `p`. */
  predicate FirstInAt(ns: Dict, p: seq<Name>, i: nat) {
    i < |ns| && ns[i].name in p && forall j :: 0 <= j < i ==> ns[j].name !in p
  }

  lemma FirstInFinds(ns: Dict, p: seq<Name>, i: nat)
    requires FirstInAt(ns, p, i)
    ensures FirstIn(ns, p) == Some(i)
  {
  }

  /** The two-pass reading fails exactly with the first name found in the list. */
  lemma TwoPassFails(ns: Dict, inherited: seq<Name>, e: ProtectedFunction)
    ensures TwoPass(ns, inherited) == Err(e) <==>
      exists i: nat :: FirstInAt(ns, inherited, i) && ns[i].name == e.name
  {
    if TwoPass(ns, inherited) == Err(e) {
      var f := FirstIn(ns, inherited);
      assert FirstInAt(ns, inherited, f.value);
    }
    if exists i: nat :: FirstInAt(ns, inherited, i) && ns[i].name == e.name {
      var i: nat :| FirstInAt(ns, inherited, i) && ns[i].name == e.name;
      FirstInFinds(ns, inherited, i);
    }
  }

  /** Creation fails with the first key of the prepared namespace, in iteration order, that is inherited. */
  lemma BuildFails(bases: seq<Option<seq<Name>>>, body: Dict, e: ProtectedFunction)
    requires UniqueKeys(body)
    ensures BuildList(bases, body) == Err(e) <==>
      exists i: nat :: FirstInAt(Prepare(body), Inherited(bases), i) && Prepare(body)[i].name == e.name
  {
    PrepareUnique(body);
    ScanIsTwoPass(Prepare(body), Inherited(bases));
    TwoPassFails(Prepare(body), Inherited(bases), e);
  }

  /** A base's list sits, whole and in order, inside the inherited list. */
  lemma InheritedSplit(bases: seq<Option<seq<Name>>>, i: nat)
    requires i < |bases|
    ensures Inherited(bases) == Inherited(bases[..i]) + Contribution(bases[i]) + Inherited(bases[i + 1..])
  {
    assert bases == bases[..i] + bases[i..];
    InheritedAppend(bases[..i], bases[i..]);
    assert bases[i..][1..] == bases[i + 1..];
  }

  /** Every name of every base's list is in the inherited list, and so in the created class's list. */
  lemma InheritedIncludesEach(bases: seq<Option<seq<Name>>>, i: nat, n: Name, body: Dict)
    requires i < |bases| && bases[i].Some? && n in bases[i].value
    ensures n in Inherited(bases)
    ensures BuildList(bases, body).Ok? ==> n in BuildList(bases, body).value
  {
    InheritedSplit(bases, i);
  }

  /**
   * A body that declares a name some base protects is refused, whether or not
   * the body marks it again; the error names an inherited protected name.
   */
  lemma RedeclarationFails(bases: seq<Option<seq<Name>>>, body: Dict, i: nat, n: Name)
    requires UniqueKeys(body)
    requires i < |bases| && bases[i].Some? && n in bases[i].value
    requires n in Keys(body)
    ensures BuildList(bases, body).Err?
    ensures BuildList(bases, body).error.name in Inherited(bases)
  {
    InheritedIncludesEach(bases, i, n, body);
    BuildSucceeds(bases, body);
    if BuildList(bases, body).Err? {
      var ns := Prepare(body);
      PrepareUnique(body);
      ScanIsTwoPass(ns, Inherited(bases));
    }
  }

  /** `__setattr__` is always in the prepared namespace, so once inherited as protected every subclass is refused. */
  lemma ProtectedSetattrBlocksSubclasses(bases: seq<Option<seq<Name>>>, body: Dict)
    requires UniqueKeys(body)
    requires SetattrKey in Inherited(bases)
    ensures BuildList(bases, body).Err?
  {
    BuildSucceeds(bases, body);
  }

  /** A created class's list never holds the list key, given that its bases' lists do not. */
  lemma ListKeyNeverCollected(bases: seq<Option<seq<Name>>>, body: Dict)
    requires UniqueKeys(body)
    requires forall i :: 0 <= i < |bases| && bases[i].Some? ==> ListKey !in bases[i].value
    ensures BuildList(bases, body).Ok? ==> ListKey !in BuildList(bases, body).value
  {
    if ListKey in Inherited(bases) {
      InheritedNames(bases, ListKey);
    }
    BuildSucceeds(bases, body);
    MarkedAdjusted(body, ListKey);
  }

  /** A name is inherited exactly when some base's list holds it. */
  lemma {:induction false} InheritedNames(bases: seq<Option<seq<Name>>>, n: Name)
    ensures n in Inherited(bases) <==> exists i :: 0 <= i < |bases| && bases[i].Some? && n in bases[i].value
  {
    if bases != [] {
      InheritedNames(bases[1..], n);
      assert forall i :: 0 < i < |bases| ==> bases[1..][i - 1] == bases[i];
      if exists i :: 0 <= i < |bases| && bases[i].Some? && n in bases[i].value {
        var i :| 0 <= i < |bases| && bases[i].Some? && n in bases[i].value;
        if i > 0 {
          assert bases[1..][i - 1] == bases[i];
        }
      }
    }
  }

  /** A body that flags nothing creates a class whose list is the inherited one, unchanged. */
  lemma UnflaggedBodyAddsNothing(bases: seq<Option<seq<Name>>>, body: Dict)
    requires UniqueKeys(body)
    requires forall i :: 0 <= i < |body| ==> !body[i].member.isProtected
    ensures BuildList(bases, body).Ok? ==> BuildList(bases, body).value == Inherited(bases)
  {
    BuildSucceeds(bases, body);
    var m := Marked(AdjustAll(body));
    if m != [] {
      MarkedAdjusted(body, m[0]);
    }
    assert Inherited(bases) + [] == Inherited(bases);
  }

  /** A callable marked with the decorator is protected by the class that declares it. */
  lemma MarkedMethodIsProtected(bases: seq<Option<seq<Name>>>, body: Dict, i: nat, m: Member)
    requires UniqueKeys(body)
    requires i < |body| && body[i].name != ListKey && body[i].member == Protect(m) && m.callable
    ensures BuildList(bases, body).Ok? ==> body[i].name in BuildList(bases, body).value
  {
    BuildSucceeds(bases, body);
    MarkedAdjusted(body, body[i].name);
  }

  /**
   * Protection passes down a chain of classes: a name protected by A stays
   * protected in B built on A and in C built on B, so C refuses both a
   * redeclaration and an assignment of it.
   */
  lemma ProtectionIsTransitive<V>(a: seq<Name>, n: Name, bBases: seq<Option<seq<Name>>>, bBody: Dict, i: nat,
                                  cBases: seq<Option<seq<Name>>>, cBody: Dict, j: nat, value: V)
    requires n in a
    requires i < |bBases| && bBases[i] == Some(a)
    requires BuildList(bBases, bBody).Ok?
    requires j < |cBases| && cBases[j] == Some(BuildList(bBases, bBody).value)
    requires UniqueKeys(cBody)
    ensures n in Keys(cBody) ==> BuildList(cBases, cBody).Err?
    ensures BuildList(cBases, cBody).Ok? ==>
      Guard(Some(BuildList(cBases, cBody).value), n, value) == Reject(ProtectedFunction(n))
  {
    InheritedIncludesEach(bBases, i, n, bBody);
    InheritedIncludesEach(cBases, j, n, cBody);
    if n in Keys(cBody) {
      RedeclarationFails(cBases, cBody, j, n);
    }
  }

  /** Marking twice is marking once. */
  lemma ProtectIdempotent(m: Member)
    ensures Protect(Protect(m)) == Protect(m)
  {
  }
}
