/** Reference counts of certificates: PmCertManager over PmCertRetrieverImpl, both on OpenSSL's X509. */
module Certificates {
  import opened Options

  // ------------------------------------------------------------------- memory

  /** `n` certificates made one after the other. */
  function Fresh(next: nat, n: nat): (ids: seq<nat>)
    ensures |ids| == n
    decreases n
  {
    if n == 0 then [] else [next] + Fresh(next + 1, n - 1)
  }

  lemma {:induction false} FreshSnoc(next: nat, n: nat)
    ensures Fresh(next, n + 1) == Fresh(next, n) + [next + n]
    decreases n
  {
    if n > 0 {
      FreshSnoc(next + 1, n - 1);
      assert Fresh(next, n + 1) == [next] + Fresh(next + 1, n);
    }
  }

  /** What a certificate says, in its encoding. */
  type Content = string

  /** The contents of all certificates ever made, by their numbers. */
  type Contents = seq<Content>

  predicate Known(contents: Contents, certs: seq<nat>) {
    forall i :: 0 <= i < |certs| ==> certs[i] < |contents|
  }

  function ContentOf(contents: Contents, cert: nat): Content {
    if cert < |contents| then contents[cert] else ""
  }

  function ContentsOf(contents: Contents, certs: seq<nat>): (cs: seq<Content>)
    ensures |cs| == |certs|
  {
    seq(|certs|, i requires 0 <= i < |certs| => ContentOf(contents, certs[i]))
  }

  /** The references that exist: a certificate is in it as often as its count says. Freeing one that does not
      exist is an error, and that is the precondition of Free. */
  class Memory {
    var refs: multiset<nat>
    var contents: Contents

    constructor ()
      ensures refs == multiset{} && contents == []
    {
      refs, contents := multiset{}, [];
    }

    method NewCert(content: Content) returns (cert: nat)
      modifies this
      ensures cert == |old(contents)| && contents == old(contents) + [content]
      ensures refs == old(refs) + multiset{cert}
    {
      cert, contents := |contents|, contents + [content];
      refs := refs + multiset{cert};
    }

    /** X509_up_ref */
    method UpRef(cert: nat)
      requires cert in refs
      modifies this`refs
      ensures refs == old(refs) + multiset{cert}
    {
      refs := refs + multiset{cert};
    }

    /** X509_dup, when it succeeds. */
    method Dup(cert: nat) returns (copy: nat)
      requires cert in refs && cert < |contents|
      modifies this
      ensures copy == |old(contents)| && contents == old(contents) + [old(contents)[cert]]
      ensures refs == old(refs) + multiset{copy}
    {
      copy := NewCert(contents[cert]);
    }

    /** X509_free */
    method Free(cert: nat)
      requires cert in refs
      modifies this`refs
      ensures refs == old(refs) - multiset{cert}
    {
      refs := refs - multiset{cert};
    }
  }

  lemma TakeOne(s: seq<nat>, i: nat)
    requires i < |s|
    ensures multiset(s[i..]) == multiset{s[i]} + multiset(s[i + 1..])
    ensures multiset(s[..i + 1]) == multiset(s[..i]) + multiset{s[i]}
  {
    assert s[i..] == [s[i]] + s[i + 1..];
    assert s[..i + 1] == s[..i] + [s[i]];
  }

  lemma NothingAdded(a: multiset<nat>)
    ensures a + multiset(Fresh(0, 0)) == a
  {
  }

  lemma ListIsHeld(list: seq<nat>, more: seq<nat>, refs: multiset<nat>)
    requires multiset(list) <= refs
    ensures multiset(list + more) <= refs + multiset(more)
  {
    assert multiset(list + more) == multiset(list) + multiset(more);
  }

  lemma {:induction false} FreshIsAt(next: nat, n: nat)
    ensures forall i :: 0 <= i < n ==> Fresh(next, n)[i] == next + i
    decreases n
  {
    if n > 0 {
      FreshIsAt(next + 1, n - 1);
    }
  }

  /** One more copy: what the memory holds, and the number of the copy. */
  lemma DupStep(contents: Contents, certs: seq<nat>, i: nat)
    requires i < |certs| && Known(contents, certs)
    ensures
      var now := contents + ContentsOf(contents, certs[..i]);
      && |now| == |contents| + i && now[certs[i]] == contents[certs[i]]
      && contents + ContentsOf(contents, certs[..i + 1]) == now + [contents[certs[i]]]
    ensures Fresh(|contents|, i + 1) == Fresh(|contents|, i) + [|contents| + i]
  {
    FreshSnoc(|contents|, i);
    assert ContentsOf(contents, certs[..i + 1]) == ContentsOf(contents, certs[..i]) + [contents[certs[i]]];
  }

  /** New certificates have the contents they were made with, and the old ones keep theirs. */
  lemma NewContents(contents: Contents, made: seq<Content>)
    ensures
      var certs := Fresh(|contents|, |made|);
      ContentsOf(contents + made, certs) == made && Known(contents + made, certs)
  {
    FreshIsAt(|contents|, |made|);
  }

  lemma OldContents(contents: Contents, made: seq<Content>, certs: seq<nat>)
    requires Known(contents, certs)
    ensures ContentsOf(contents + made, certs) == ContentsOf(contents, certs) && Known(contents + made, certs)
  {
  }

  lemma ContentsAppend(contents: Contents, a: seq<nat>, b: seq<nat>)
    ensures ContentsOf(contents, a + b) == ContentsOf(contents, a) + ContentsOf(contents, b)
    ensures Known(contents, a) && Known(contents, b) ==> Known(contents, a + b)
  {
  }

  lemma ListIsKnown(contents: Contents, certs: seq<nat>, made: seq<Content>)
    requires Known(contents, certs)
    ensures Known(contents + made, certs + Fresh(|contents|, |made|))
    ensures ContentsOf(contents + made, certs + Fresh(|contents|, |made|)) == ContentsOf(contents, certs) + made
  {
    NewContents(contents, made);
    OldContents(contents, made, certs);
    ContentsAppend(contents + made, certs, Fresh(|contents|, |made|));
  }

  /** Certificate by certificate. */
  predicate SameContents(contents: Contents, a: seq<nat>, b: seq<nat>) {
    && |a| == |b| && Known(contents, a) && Known(contents, b)
    && forall i :: 0 <= i < |a| ==> contents[a[i]] == contents[b[i]]
  }

  lemma CopiesAreTheSame(contents: Contents, certs: seq<nat>)
    requires Known(contents, certs)
    ensures SameContents(contents + ContentsOf(contents, certs), Fresh(|contents|, |certs|), certs)
  {
    FreshIsAt(|contents|, |certs|);
  }

  // ---------------------------------------------------------------- retriever

  /** What loading meets: no store, a store without a stack of objects, or its objects, of which some are
      certificates. */
  datatype Store = NoStore | NoStack | Objects(objects: seq<Option<Content>>)

  /** The certificates among some objects. */
  function Certified(objects: seq<Option<Content>>): seq<Content> {
    if objects == [] then []
    else
      var last := objects[|objects| - 1];
      Certified(objects[..|objects| - 1]) + if last.Some? then [last.value] else []
  }

  /** All of them, in order. */
  lemma {:induction false} CertifiedInOrder(a: seq<Option<Content>>, c: Content, b: seq<Option<Content>>)
    ensures Certified([]) == [] && Certified([Some(c)]) == [c] && Certified([None]) == []
    ensures Certified(a + b) == Certified(a) + Certified(b)
    decreases |b|
  {
    var one: seq<Option<Content>>, none: seq<Option<Content>> := [Some(c)], [None];
    assert one[..0] == [] && none[..0] == [];
    if b == [] {
      assert a + b == a;
    } else {
      var front := b[..|b| - 1];
      assert (a + b)[..|a + b| - 1] == a + front;
      CertifiedInOrder(a, c, front);
    }
  }

  /** One more object: what the memory holds, and the numbers of the certificates. */
  lemma FillStep(contents: Contents, objects: seq<Option<Content>>, i: nat)
    requires i < |objects|
    ensures
      var done, more := Certified(objects[..i]), Certified(objects[..i + 1]);
      && (objects[i].None? ==> more == done)
      && (objects[i].Some? ==>
            && contents + more == (contents + done) + [objects[i].value]
            && Fresh(|contents|, |more|) == Fresh(|contents|, |done|) + [|contents + done|])
  {
    assert objects[..i + 1][..i] == objects[..i];
    FreshSnoc(|contents|, |Certified(objects[..i])|);
  }

  function Loaded(store: Store): seq<Content> {
    match store
    case Objects(objects) => Certified(objects)
    case _ => []
  }

  class PmCertRetrieverImpl {
    const memory: Memory
    var certificates: seq<nat>

    ghost predicate Valid()
      reads this, memory
    {
      multiset(certificates) <= memory.refs && Known(memory.contents, certificates)
    }

    constructor (m: Memory)
      ensures memory == m && certificates == []
    {
      memory, certificates := m, [];
    }

    /** The certificates of the file go into the store, which holds a reference to each. */
    method FillStore(objects: seq<Option<Content>>) returns (stack: seq<nat>)
      modifies memory
      ensures stack == Fresh(|old(memory.contents)|, |Certified(objects)|)
      ensures memory.contents == old(memory.contents) + Certified(objects)
      ensures memory.refs == old(memory.refs) + multiset(stack)
    {
      ghost var before, refs := memory.contents, memory.refs;
      stack := [];
      assert objects[..0] == [];
      for iPos := 0 to |objects|
        invariant stack == Fresh(|before|, |Certified(objects[..iPos])|)
        invariant memory.contents == before + Certified(objects[..iPos])
        invariant memory.refs == refs + multiset(stack)
      {
        FillStep(before, objects, iPos);
        if objects[iPos].Some? {
          var cert := memory.NewCert(objects[iPos].value);
          stack := stack + [cert];
        }
      }
      assert objects[..|objects|] == objects;
    }

    /** Frees each of a list, one after the other; `rest` is what is not in the list. */
    method FreeEach(certs: seq<nat>, ghost rest: multiset<nat>)
      requires memory.refs == rest + multiset(certs)
      modifies memory`refs
      ensures memory.refs == rest
    {
      assert certs[0..] == certs;
      for i := 0 to |certs|
        invariant memory.refs == rest + multiset(certs[i..])
      {
        TakeOne(certs, i);
        memory.Free(certs[i]);
      }
    }

    /** The loop over the stack: a further reference to each certificate, for the list. */
    method KeepEach(stack: seq<nat>, ghost before: multiset<nat>)
      requires memory.refs == before + multiset(stack)
      modifies this, memory`refs
      ensures certificates == old(certificates) + stack
      ensures memory.refs == before + multiset(stack) + multiset(stack)
    {
      assert stack[..0] == [];
      for iPos := 0 to |stack|
        invariant memory.refs == before + multiset(stack) + multiset(stack[..iPos])
        invariant certificates == old(certificates) + stack[..iPos]
      {
        TakeOne(stack, iPos);
        assert stack[iPos] in multiset(stack);
        memory.UpRef(stack[iPos]);
        certificates := certificates + [stack[iPos]];
      }
      assert stack[..|stack|] == stack;
    }

    /** The store is filled, its certificates are kept, and X509_STORE_free gives back what it held. */
    method LoadObjects(objects: seq<Option<Content>>)
      modifies this, memory
      ensures certificates == old(certificates) + Fresh(|old(memory.contents)|, |Certified(objects)|)
      ensures memory.refs == old(memory.refs) + multiset(Fresh(|old(memory.contents)|, |Certified(objects)|))
      ensures memory.contents == old(memory.contents) + Certified(objects)
    {
      ghost var before := memory.refs;
      var stack := FillStore(objects);
      KeepEach(stack, before);
      FreeEach(stack, before + multiset(stack));
    }

    /** A second load adds to the list of the first. */
    method LoadSystemSslCertificates(store: Store) returns (ok: bool)
      requires Valid()
      modifies this, memory
      ensures Valid()
      ensures certificates == old(certificates) + Fresh(|old(memory.contents)|, |Loaded(store)|)
      ensures memory.refs == old(memory.refs) + multiset(Fresh(|old(memory.contents)|, |Loaded(store)|))
      ensures memory.contents == old(memory.contents) + Loaded(store)
      ensures ok <==> store.Objects? && |certificates| > 0
    {
      if !store.Objects? {
        NothingAdded(memory.refs);
        return false;
      }
      ListIsHeld(certificates, Fresh(|memory.contents|, |Loaded(store)|), memory.refs);
      ListIsKnown(memory.contents, certificates, Loaded(store));
      LoadObjects(store.objects);
      return |certificates| > 0;
    }

    method FreeSystemSslCertificates() returns (ok: bool)
      requires Valid()
      modifies this, memory`refs
      ensures Valid() && ok && certificates == []
      ensures memory.refs == old(memory.refs) - multiset(old(certificates))
    {
      ghost var rest := memory.refs - multiset(certificates);
      FreeEach(certificates, rest);
      certificates := [];
      return true;
    }

    /** The destructor. */
    method Destroy()
      requires Valid()
      modifies this, memory`refs
      ensures Valid() && certificates == []
      ensures memory.refs == old(memory.refs) - multiset(old(certificates))
    {
      var _ := FreeSystemSslCertificates();
    }

    /** A copy of every certificate, in the same order. */
    method GetSslCertificates() returns (result: int, copies: seq<nat>)
      requires Valid()
      modifies memory
      ensures Valid()
      ensures copies == Fresh(|old(memory.contents)|, |certificates|)
      ensures memory.contents == old(memory.contents) + ContentsOf(old(memory.contents), certificates)
      ensures memory.refs == old(memory.refs) + multiset(copies)
      ensures SameContents(memory.contents, copies, certificates)
      ensures result == if certificates == [] then -1 else 0
    {
      ghost var before, refs := memory.contents, memory.refs;
      copies := [];
      for i := 0 to |certificates|
        invariant copies == Fresh(|before|, i)
        invariant memory.contents == before + ContentsOf(before, certificates[..i])
        invariant memory.refs == refs + multiset(copies)
      {
        assert certificates[i] in multiset(certificates);
        DupStep(before, certificates, i);
        var copy := memory.Dup(certificates[i]);
        copies := copies + [copy];
      }
      assert certificates[..|certificates|] == certificates;
      CopiesAreTheSame(before, certificates);
      result := if copies == [] then -1 else 0;
    }
  }

  // ------------------------------------------------------------------ manager

  /** The pointers in an array that calloc made; None is the null pointer. */
  function Held(entries: seq<Option<nat>>): seq<nat> {
    if entries == [] then []
    else (if entries[0].Some? then [entries[0].value] else []) + Held(entries[1..])
  }

  ghost predicate ArrayHolds(a: array<Option<nat>>, certs: seq<nat>)
    reads a
  {
    a.Length == |certs| && forall i :: 0 <= i < |certs| ==> a[i] == Some(certs[i])
  }

  predicate AreHeld(entries: seq<Option<nat>>, certs: seq<nat>) {
    |entries| == |certs| && forall i :: 0 <= i < |certs| ==> entries[i] == Some(certs[i])
  }

  lemma {:induction false} HeldAll(entries: seq<Option<nat>>, certs: seq<nat>)
    requires AreHeld(entries, certs)
    ensures Held(entries) == certs
    decreases |certs|
  {
    if certs != [] {
      HeldAll(entries[1..], certs[1..]);
    }
  }

  class PmCertManager {
    const memory: Memory
    const certRetriever: PmCertRetrieverImpl?

    ghost predicate Valid()
      reads this, memory, certRetriever
    {
      certRetriever != null ==> certRetriever.memory == memory && certRetriever.Valid()
    }

    ghost function List(): seq<nat>
      reads this, certRetriever
    {
      if certRetriever == null then [] else certRetriever.certificates
    }

    constructor (m: Memory, retriever: PmCertRetrieverImpl?)
      requires retriever != null ==> retriever.memory == m && retriever.Valid()
      ensures memory == m && certRetriever == retriever && Valid()
    {
      memory, certRetriever := m, retriever;
    }

    method LoadSystemSslCertificates(store: Store) returns (ok: bool)
      requires Valid()
      modifies memory, certRetriever
      ensures Valid()
      ensures certRetriever == null ==>
        !ok && memory.refs == old(memory.refs) && memory.contents == old(memory.contents)
      ensures certRetriever != null ==>
        var loaded := Fresh(|old(memory.contents)|, |Loaded(store)|);
        && certRetriever.certificates == old(certRetriever.certificates) + loaded
        && memory.refs == old(memory.refs) + multiset(loaded)
        && memory.contents == old(memory.contents) + Loaded(store)
        && (ok <==> store.Objects? && |certRetriever.certificates| > 0)
    {
      if certRetriever == null {
        return false;
      }
      ok := certRetriever.LoadSystemSslCertificates(store);
    }

    method FreeSystemSslCertificates() returns (ok: bool)
      requires Valid()
      modifies memory`refs, certRetriever
      ensures Valid() && (ok <==> certRetriever != null)
      ensures certRetriever == null ==> memory.refs == old(memory.refs)
      ensures certRetriever != null ==>
        && certRetriever.certificates == []
        && memory.refs == old(memory.refs) - multiset(old(certRetriever.certificates))
    {
      if certRetriever == null {
        return false;
      }
      ok := certRetriever.FreeSystemSslCertificates();
    }

    /** The destructor. */
    method Destroy()
      requires Valid()
      modifies memory`refs, certRetriever
      ensures Valid()
      ensures certRetriever == null ==> memory.refs == old(memory.refs)
      ensures certRetriever != null ==>
        && certRetriever.certificates == []
        && memory.refs == old(memory.refs) - multiset(old(certRetriever.certificates))
    {
      var _ := FreeSystemSslCertificates();
    }

    /** `wanted` is false when the caller passes a null out-pointer; the copies are made all the same. */
    method GetSslCertificates(wanted: bool) returns (result: int, certificates: array?<Option<nat>>, count: nat)
      requires Valid()
      modifies memory
      ensures Valid()
      ensures memory.refs == old(memory.refs) + multiset(Fresh(|old(memory.contents)|, |List()|))
      ensures memory.contents == old(memory.contents) + ContentsOf(old(memory.contents), List())
      ensures result == (if wanted && List() != [] then 0 else -1) && count == (if wanted then |List()| else 0)
      ensures certificates == null <==> !wanted || List() == []
      ensures certificates != null ==>
        var copies := Fresh(|old(memory.contents)|, |List()|);
        fresh(certificates) && ArrayHolds(certificates, copies) && SameContents(memory.contents, copies, List())
    {
      result, certificates, count := -1, null, 0;
      var certVector: seq<nat> := [];
      if certRetriever != null {
        var _, copies := certRetriever.GetSslCertificates();
        certVector := copies;
      }
      if wanted && certVector != [] {
        certificates, count := ArrayOf(certVector);
        result := 0;
      }
    }

    /** The loop that fills the array. */
    static method ArrayOf(certVector: seq<nat>) returns (certificates: array<Option<nat>>, count: nat)
      ensures fresh(certificates) && ArrayHolds(certificates, certVector) && count == |certVector|
    {
      certificates, count := new Option<nat>[|certVector|](i => None), 0;
      for i := 0 to |certVector|
        invariant count == i <= certificates.Length
        invariant forall k :: 0 <= k < i ==> certificates[k] == Some(certVector[k])
      {
        certificates[count] := Some(certVector[i]);
        count := count + 1;
      }
    }

    /** The releasing loop; `rest` is what is not in the array. */
    method FreeEntries(certificates: array<Option<nat>>, count: nat, ghost certs: seq<nat>, ghost rest: multiset<nat>)
      requires |certs| == count <= certificates.Length
      requires forall k :: 0 <= k < |certs| ==> certificates[k] == Some(certs[k])
      requires memory.refs == rest + multiset(certs)
      modifies memory`refs, certificates
      ensures memory.refs == rest
      ensures forall k :: 0 <= k < |certs| ==> certificates[k].None?
    {
      assert certs[0..] == certs;
      for i := 0 to count
        invariant forall k :: 0 <= k < i ==> certificates[k].None?
        invariant forall k :: i <= k < count ==> certificates[k] == Some(certs[k])
        invariant memory.refs == rest + multiset(certs[i..])
      {
        TakeOne(certs, i);
        memory.Free(certificates[i].value);
        certificates[i] := None;
      }
    }

    /** To be called once for an array that GetSslCertificates returned, with its count. */
    method ReleaseSslCertificates(certificates: array?<Option<nat>>, count: nat)
      requires certificates != null ==>
        && count <= certificates.Length
        && (forall i :: 0 <= i < count ==> certificates[i].Some?)
        && multiset(Held(certificates[..count])) <= memory.refs
      modifies memory`refs, certificates
      ensures certificates == null ==> memory.refs == old(memory.refs)
      ensures certificates != null ==>
        && memory.refs == old(memory.refs) - multiset(old(Held(certificates[..count])))
        && forall i :: 0 <= i < count ==> certificates[i].None?
    {
      if certificates != null {
        ghost var certs := Held(certificates[..count]);
        HeldValues(certificates[..count]);
        FreeEntries(certificates, count, certs, memory.refs - multiset(certs));
      }
    }
  }

  lemma {:induction false} HeldValues(entries: seq<Option<nat>>)
    requires forall i :: 0 <= i < |entries| ==> entries[i].Some?
    ensures |Held(entries)| == |entries| && forall i :: 0 <= i < |entries| ==> entries[i] == Some(Held(entries)[i])
    decreases |entries|
  {
    if entries != [] {
      HeldValues(entries[1..]);
    }
  }

  // --------------------------------------------------------------------- runs

  /** A sequence without its k-th element. */
  function Without<T>(s: seq<T>, k: nat): seq<T>
    requires k < |s|
  {
    s[..k] + s[k + 1..]
  }

  /** What exists after some calls: the references, the retriever's list, the arrays that callers have and
      have not released, and the copies that nobody has. */
  datatype Holdings = Holdings(
    refs: multiset<nat>, contents: Contents, list: seq<nat>, arrays: seq<seq<nat>>, leaked: seq<nat>)

  datatype Call =
    | Load(store: Store)
    | Free
    | Get(wanted: bool)
    | Release(index: nat)

  predicate CanCall(h: Holdings, c: Call) {
    c.Release? ==> c.index < |h.arrays|
  }

  /** The certificates that are about to be made. */
  function NewOnes(h: Holdings, made: seq<Content>): seq<nat> {
    Fresh(|h.contents|, |made|)
  }

  function Made(h: Holdings, made: seq<Content>): Holdings {
    h.(refs := h.refs + multiset(NewOnes(h, made)), contents := h.contents + made)
  }

  function Perform(h: Holdings, c: Call): Holdings
    requires CanCall(h, c)
  {
    match c
    case Load(store) => Made(h, Loaded(store)).(list := h.list + NewOnes(h, Loaded(store)))
    case Free => h.(refs := h.refs - multiset(h.list), list := [])
    case Get(wanted) =>
      var contents := ContentsOf(h.contents, h.list);
      var copies := NewOnes(h, contents);
      if wanted && copies != [] then Made(h, contents).(arrays := h.arrays + [copies])
      else Made(h, contents).(leaked := h.leaked + copies)
    case Release(k) =>
      h.(refs := h.refs - multiset(h.arrays[k]), arrays := Without(h.arrays, k))
  }

  predicate CanPerform(h: Holdings, calls: seq<Call>)
    decreases |calls|
  {
    calls != [] ==> CanCall(h, calls[0]) && CanPerform(Perform(h, calls[0]), calls[1..])
  }

  function PerformAll(h: Holdings, calls: seq<Call>): Holdings
    requires CanPerform(h, calls)
    decreases |calls|
  {
    if calls == [] then h else PerformAll(Perform(h, calls[0]), calls[1..])
  }

  function Flat(arrays: seq<seq<nat>>): seq<nat> {
    if arrays == [] then [] else arrays[0] + Flat(arrays[1..])
  }

  function Sizes(arrays: seq<seq<nat>>): nat {
    if arrays == [] then 0 else |arrays[0]| + Sizes(arrays[1..])
  }

  lemma {:induction false} FlatAppends(a: seq<seq<nat>>, b: seq<seq<nat>>)
    ensures Flat(a + b) == Flat(a) + Flat(b)
    decreases |a|
  {
    if a == [] {
      assert a + b == b;
    } else {
      assert (a + b)[1..] == a[1..] + b;
      FlatAppends(a[1..], b);
    }
  }

  lemma FlatOne(a: seq<nat>)
    ensures Flat([a]) == a
  {
    var none: seq<seq<nat>> := [];
    assert [a][1..] == none;
  }

  lemma {:induction false} FlatSize(arrays: seq<seq<nat>>)
    ensures |Flat(arrays)| == Sizes(arrays)
  {
    if arrays != [] {
      FlatSize(arrays[1..]);
    }
  }

  /** Every reference is held exactly once: in the list, in an array, or leaked. */
  predicate Accounted(h: Holdings) {
    h.refs == multiset(h.list) + multiset(Flat(h.arrays)) + multiset(h.leaked)
  }

  lemma FlatInsert(a: seq<seq<nat>>, x: seq<nat>, b: seq<seq<nat>>)
    ensures Flat(a + ([x] + b)) == Flat(a) + (x + Flat(b)) && Flat(a + b) == Flat(a) + Flat(b)
  {
    FlatAppends(a, [x] + b);
    FlatAppends([x], b);
    FlatAppends(a, b);
    FlatOne(x);
  }

  lemma TakeMiddle(a: seq<nat>, x: seq<nat>, b: seq<nat>)
    ensures multiset(a + (x + b)) == multiset(a + b) + multiset(x)
  {
  }

  lemma SplitAround(arrays: seq<seq<nat>>, k: nat)
    requires k < |arrays|
    ensures arrays == arrays[..k] + ([arrays[k]] + arrays[k + 1..])
  {
  }

  lemma FlatWithout(arrays: seq<seq<nat>>, k: nat)
    requires k < |arrays|
    ensures multiset(Flat(arrays)) == multiset(Flat(Without(arrays, k))) + multiset(arrays[k])
  {
    var a, b := arrays[..k], arrays[k + 1..];
    SplitAround(arrays, k);
    FlatInsert(a, arrays[k], b);
    TakeMiddle(Flat(a), arrays[k], Flat(b));
  }

  lemma AddToAccount(r: multiset<nat>, l: multiset<nat>, a: multiset<nat>, k: multiset<nat>, f: multiset<nat>)
    requires r == l + a + k
    ensures r + f == (l + f) + a + k && r + f == l + (a + f) + k && r + f == l + a + (k + f)
  {
  }

  lemma TakeFromAccount(r: multiset<nat>, l: multiset<nat>, a: multiset<nat>, k: multiset<nat>, f: multiset<nat>)
    requires r == l + (a + f) + k
    ensures f <= r && r - f == l + a + k
  {
  }

  lemma GetKeepsAccount(h: Holdings, wanted: bool)
    requires Accounted(h)
    ensures Accounted(Perform(h, Get(wanted)))
  {
    var copies := NewOnes(h, ContentsOf(h.contents, h.list));
    AddToAccount(h.refs, multiset(h.list), multiset(Flat(h.arrays)), multiset(h.leaked), multiset(copies));
    FlatAppends(h.arrays, [copies]);
    FlatOne(copies);
  }

  lemma LoadKeepsAccount(h: Holdings, store: Store)
    requires Accounted(h)
    ensures Accounted(Perform(h, Load(store)))
  {
    var made := multiset(NewOnes(h, Loaded(store)));
    AddToAccount(h.refs, multiset(h.list), multiset(Flat(h.arrays)), multiset(h.leaked), made);
  }

  lemma AccountWithout(h: Holdings, arrays: seq<seq<nat>>, x: seq<nat>)
    requires Accounted(h) && multiset(Flat(h.arrays)) == multiset(Flat(arrays)) + multiset(x)
    ensures multiset(x) <= h.refs && Accounted(h.(refs := h.refs - multiset(x), arrays := arrays))
  {
    TakeFromAccount(h.refs, multiset(h.list), multiset(Flat(arrays)), multiset(h.leaked), multiset(x));
  }

  lemma ReleaseKeepsAccount(h: Holdings, k: nat)
    requires Accounted(h) && k < |h.arrays|
    ensures multiset(h.arrays[k]) <= h.refs && Accounted(Perform(h, Release(k)))
  {
    FlatWithout(h.arrays, k);
    AccountWithout(h, Without(h.arrays, k), h.arrays[k]);
  }

  lemma FreeKeepsAccount(h: Holdings)
    requires Accounted(h)
    ensures multiset(h.list) <= h.refs && Accounted(Perform(h, Free))
  {
    var rest := multiset(Flat(h.arrays)) + multiset(h.leaked);
    assert h.refs == multiset(h.list) + rest && h.refs - multiset(h.list) == rest;
  }

  /** What a call gives back exists, so that nothing is freed twice; and afterwards everything is accounted
      for again. */
  lemma CallKeepsAccount(h: Holdings, c: Call)
    requires Accounted(h) && CanCall(h, c)
    ensures c.Free? ==> multiset(h.list) <= h.refs
    ensures c.Release? ==> multiset(h.arrays[c.index]) <= h.refs
    ensures Accounted(Perform(h, c))
  {
    match c
    case Load(store) => LoadKeepsAccount(h, store);
    case Free => FreeKeepsAccount(h);
    case Get(wanted) => GetKeepsAccount(h, wanted);
    case Release(k) => ReleaseKeepsAccount(h, k);
  }

  /** A get without an out-pointer meets an empty list only. */
  predicate NothingLeaks(h: Holdings, calls: seq<Call>)
    requires CanPerform(h, calls)
    decreases |calls|
  {
    calls != [] ==>
      && (calls[0] == Get(false) ==> h.list == [])
      && NothingLeaks(Perform(h, calls[0]), calls[1..])
  }

  lemma FreshIsEmpty(next: nat, n: nat)
    ensures Fresh(next, n) == [] <==> n == 0
  {
  }

  lemma {:induction false} AccountIsKept(h: Holdings, calls: seq<Call>)
    requires Accounted(h) && CanPerform(h, calls)
    ensures Accounted(PerformAll(h, calls))
    decreases |calls|
  {
    if calls != [] {
      CallKeepsAccount(h, calls[0]);
      AccountIsKept(Perform(h, calls[0]), calls[1..]);
    }
  }

  lemma {:induction false} LeaksAreCounted(h: Holdings, calls: seq<Call>)
    requires CanPerform(h, calls)
    ensures |h.leaked| <= |PerformAll(h, calls).leaked|
    ensures |PerformAll(h, calls).leaked| == |h.leaked| <==> NothingLeaks(h, calls)
    decreases |calls|
  {
    if calls != [] {
      FreshIsEmpty(|h.contents|, |h.list|);
      LeaksAreCounted(Perform(h, calls[0]), calls[1..]);
    }
  }

  lemma ReferenceCount(h: Holdings)
    requires Accounted(h)
    ensures |h.refs| == |h.list| + Sizes(h.arrays) + |h.leaked|
  {
    FlatSize(h.arrays);
  }

  /** Over every run of calls: the references that exist are as many as the list and the outstanding arrays
      hold, and those of the gets that had nowhere to put them. There are none of those exactly when every
      get of a list that is not empty is given an out-pointer. */
  lemma ReferencesAreConserved(h: Holdings, calls: seq<Call>)
    requires Accounted(h) && CanPerform(h, calls)
    ensures
      var h' := PerformAll(h, calls);
      && Accounted(h')
      && |h'.refs| == |h'.list| + Sizes(h'.arrays) + |h'.leaked|
      && |h.leaked| <= |h'.leaked|
      && (|h'.leaked| == |h.leaked| <==> NothingLeaks(h, calls))
  {
    AccountIsKept(h, calls);
    LeaksAreCounted(h, calls);
    ReferenceCount(PerformAll(h, calls));
  }

  const NO_HOLDINGS := Holdings(multiset{}, [], [], [], [])

  /** ~PmCertManager frees the retriever's list, and ~PmCertRetrieverImpl frees it again. */
  const DESTRUCTORS := [Free, Free]

  lemma DestructorsFreeTwice(h: Holdings)
    ensures CanPerform(h, DESTRUCTORS)
    ensures PerformAll(h, DESTRUCTORS) == Perform(Perform(h, Free), Free)
  {
    assert DESTRUCTORS[1..] == [Free] && [Free][1..] == [];
    var h1 := Perform(h, Free);
    assert CanPerform(h1, [Free]) && PerformAll(h1, [Free]) == Perform(h1, Free);
  }

  lemma FreeTwice(h: Holdings)
    ensures Perform(Perform(h, Free), Free).refs == h.refs - multiset(h.list)
  {
  }

  lemma FreeingTheList(h: Holdings)
    requires Accounted(h) && h.arrays == []
    ensures Perform(h, Free).refs == multiset(h.leaked)
    ensures Perform(Perform(h, Free), Free) == Perform(h, Free) && Perform(h, Free).leaked == h.leaked
    ensures multiset(h.leaked) == multiset{} <==> |h.leaked| == 0
  {
    assert |multiset(h.leaked)| == |h.leaked|;
  }

  /** Once every array is released and both destructors have run, exactly the leaked references are left:
      none at all exactly when no get leaked. */
  lemma NothingIsLeft(calls: seq<Call>)
    requires CanPerform(NO_HOLDINGS, calls) && PerformAll(NO_HOLDINGS, calls).arrays == []
    ensures CanPerform(PerformAll(NO_HOLDINGS, calls), DESTRUCTORS)
    ensures
      var h := PerformAll(PerformAll(NO_HOLDINGS, calls), DESTRUCTORS);
      && h.refs == multiset(h.leaked)
      && (h.refs == multiset{} <==> NothingLeaks(NO_HOLDINGS, calls))
  {
    ReferencesAreConserved(NO_HOLDINGS, calls);
    var h := PerformAll(NO_HOLDINGS, calls);
    DestructorsFreeTwice(h);
    FreeingTheList(h);
  }

  lemma TwoCalls(h: Holdings, a: Call, b: Call)
    requires CanCall(h, a) && CanCall(Perform(h, a), b)
    ensures CanPerform(h, [a, b]) && PerformAll(h, [a, b]) == Perform(Perform(h, a), b)
    ensures NothingLeaks(h, [a, b]) ==> (b == Get(false) ==> Perform(h, a).list == [])
  {
    var h1 := Perform(h, a);
    assert [a, b][1..] == [b] && [b][1..] == [];
    assert CanPerform(Perform(h1, b), []) && CanPerform(h1, [b]);
    assert PerformAll(h1, [b]) == Perform(h1, b);
    if NothingLeaks(h, [a, b]) {
      assert NothingLeaks(h1, [b]);
    }
  }

  /** Load a store that has a certificate, and get without an out-pointer: as many
      copies are left as were loaded, and nobody can free them. */
  lemma NullGetLeaks(store: Store)
    requires Loaded(store) != []
    ensures
      var calls := [Load(store), Get(false)];
      && CanPerform(NO_HOLDINGS, calls) && !NothingLeaks(NO_HOLDINGS, calls)
      && PerformAll(NO_HOLDINGS, calls).arrays == []
      && |PerformAll(NO_HOLDINGS, calls).leaked| == |Loaded(store)|
  {
    TwoCalls(NO_HOLDINGS, Load(store), Get(false));
    assert |Perform(NO_HOLDINGS, Load(store)).list| == |Loaded(store)|;
  }

  /** A store of one certificate is enough. */
  lemma OneCopyIsLeft(content: Content)
    ensures
      var calls := [Load(Objects([Some(content)])), Get(false)];
      CanPerform(NO_HOLDINGS, calls) && |PerformAll(NO_HOLDINGS, calls).leaked| == 1
  {
    CertifiedInOrder([], content, []);
    NullGetLeaks(Objects([Some(content)]));
  }

  // ----------------------------------------------- what the list and the arrays say

  /** Everything that is held has been made. */
  predicate AllKnown(h: Holdings) {
    Known(h.contents, h.list) && forall k :: 0 <= k < |h.arrays| ==> Known(h.contents, h.arrays[k])
  }

  predicate Sound(h: Holdings) {
    Accounted(h) && AllKnown(h)
  }

  lemma CallKeepsKnown(h: Holdings, c: Call)
    requires AllKnown(h) && CanCall(h, c)
    ensures AllKnown(Perform(h, c))
  {
    match c
    case Load(store) => ListIsKnown(h.contents, h.list, Loaded(store));
    case Get(wanted) => NewContents(h.contents, ContentsOf(h.contents, h.list));
    case _ =>
  }

  lemma {:induction false} KnownIsKept(h: Holdings, calls: seq<Call>)
    requires AllKnown(h) && CanPerform(h, calls)
    ensures AllKnown(PerformAll(h, calls))
    decreases |calls|
  {
    if calls != [] {
      CallKeepsKnown(h, calls[0]);
      KnownIsKept(Perform(h, calls[0]), calls[1..]);
    }
  }

  /** The same calls on nothing but contents: what a caller expects the list and the arrays to say. */
  datatype Said = Said(list: seq<Content>, arrays: seq<seq<Content>>)

  function Say(s: Said, c: Call): Said
    requires c.Release? ==> c.index < |s.arrays|
  {
    match c
    case Load(store) => s.(list := s.list + Loaded(store))
    case Free => s.(list := [])
    case Get(wanted) => if wanted && s.list != [] then s.(arrays := s.arrays + [s.list]) else s
    case Release(k) => s.(arrays := Without(s.arrays, k))
  }

  predicate Says(h: Holdings, s: Said) {
    && ContentsOf(h.contents, h.list) == s.list && |h.arrays| == |s.arrays|
    && forall k :: 0 <= k < |h.arrays| ==> ContentsOf(h.contents, h.arrays[k]) == s.arrays[k]
  }

  lemma MadeSays(h: Holdings, s: Said, made: seq<Content>)
    requires AllKnown(h) && Says(h, s)
    ensures Says(Made(h, made), s)
  {
    OldContents(h.contents, made, h.list);
    forall k | 0 <= k < |h.arrays| ensures ContentsOf(h.contents + made, h.arrays[k]) == s.arrays[k] {
      OldContents(h.contents, made, h.arrays[k]);
    }
  }

  lemma CallSays(h: Holdings, s: Said, c: Call)
    requires AllKnown(h) && Says(h, s) && CanCall(h, c)
    ensures Says(Perform(h, c), Say(s, c))
  {
    match c
    case Load(store) =>
      MadeSays(h, s, Loaded(store));
      ListIsKnown(h.contents, h.list, Loaded(store));
    case Get(wanted) =>
      MadeSays(h, s, s.list);
      NewContents(h.contents, s.list);
      FreshIsEmpty(|h.contents|, |h.list|);
    case _ =>
  }

  predicate CanSay(s: Said, calls: seq<Call>)
    decreases |calls|
  {
    calls != [] ==> (calls[0].Release? ==> calls[0].index < |s.arrays|) && CanSay(Say(s, calls[0]), calls[1..])
  }

  function SayAll(s: Said, calls: seq<Call>): Said
    requires CanSay(s, calls)
    decreases |calls|
  {
    if calls == [] then s else SayAll(Say(s, calls[0]), calls[1..])
  }

  /** Over every run: the list says what the stores loaded since the last free said, in order, and every array that is
      not released says what the list said when it was got. */
  lemma {:induction false} EveryCallSays(h: Holdings, s: Said, calls: seq<Call>)
    requires AllKnown(h) && Says(h, s) && CanPerform(h, calls)
    ensures CanSay(s, calls) && Says(PerformAll(h, calls), SayAll(s, calls))
    decreases |calls|
  {
    if calls != [] {
      CallSays(h, s, calls[0]);
      CallKeepsKnown(h, calls[0]);
      EveryCallSays(Perform(h, calls[0]), Say(s, calls[0]), calls[1..]);
    }
  }

  // ------------------------------------------------------ the objects along a run

  predicate Distinct(arrays: seq<array<Option<nat>>>) {
    forall i, j :: 0 <= i < j < |arrays| ==> arrays[i] != arrays[j]
  }

  /** What the arrays hold, by place. */
  ghost predicate ArraysHold(arrays: seq<array<Option<nat>>>, held: seq<seq<nat>>)
    reads arrays
  {
    && |arrays| == |held| && Distinct(arrays)
    && forall k :: 0 <= k < |arrays| ==> ArrayHolds(arrays[k], held[k])
  }

  /** The memory and the retriever's list are those of the holdings. */
  ghost predicate ListHolds(memory: Memory, retriever: PmCertRetrieverImpl, h: Holdings)
    reads memory, retriever
  {
    memory.refs == h.refs && memory.contents == h.contents && retriever.certificates == h.list
  }

  ghost predicate Connected(manager: PmCertManager, retriever: PmCertRetrieverImpl) {
    manager.certRetriever == retriever && retriever.memory == manager.memory
  }

  lemma ListExists(h: Holdings)
    requires Sound(h)
    ensures multiset(h.list) <= h.refs && Known(h.contents, h.list)
  {
  }

  lemma ArrayExists(h: Holdings, k: nat)
    requires Accounted(h) && k < |h.arrays|
    ensures multiset(h.arrays[k]) <= h.refs
  {
    ReleaseKeepsAccount(h, k);
  }

  /** The objects are those of the holdings. */
  ghost predicate Represents(manager: PmCertManager, retriever: PmCertRetrieverImpl, arrays: seq<array<Option<nat>>>,
                             h: Holdings)
    reads manager.memory, retriever, arrays
  {
    Connected(manager, retriever) && ListHolds(manager.memory, retriever, h) && ArraysHold(arrays, h.arrays)
  }

  method PerformLoad(manager: PmCertManager, retriever: PmCertRetrieverImpl, arrays: seq<array<Option<nat>>>,
                     store: Store, ghost h: Holdings)
    requires Represents(manager, retriever, arrays, h) && Sound(h)
    modifies manager.memory, retriever
    ensures Represents(manager, retriever, arrays, Perform(h, Load(store)))
  {
    ListExists(h);
    var _ := manager.LoadSystemSslCertificates(store);
  }

  method PerformFree(manager: PmCertManager, retriever: PmCertRetrieverImpl, arrays: seq<array<Option<nat>>>,
                     ghost h: Holdings)
    requires Represents(manager, retriever, arrays, h) && Sound(h)
    modifies manager.memory, retriever
    ensures Represents(manager, retriever, arrays, Perform(h, Free))
  {
    ListExists(h);
    var _ := manager.FreeSystemSslCertificates();
  }

  lemma ArraysHoldSnoc(arrays: seq<array<Option<nat>>>, held: seq<seq<nat>>, a: array<Option<nat>>, certs: seq<nat>)
    requires ArraysHold(arrays, held) && ArrayHolds(a, certs) && a !in arrays
    ensures ArraysHold(arrays + [a], held + [certs])
  {
  }

  lemma GetIs(h: Holdings, wanted: bool)
    ensures
      var copies := Fresh(|h.contents|, |h.list|);
      var h' := Perform(h, Get(wanted));
      && h'.refs == h.refs + multiset(copies) && h'.list == h.list
      && h'.contents == h.contents + ContentsOf(h.contents, h.list)
      && h'.arrays == if wanted && |h.list| > 0 then h.arrays + [copies] else h.arrays
  {
    FreshIsEmpty(|h.contents|, |h.list|);
  }

  /** A get whose array, if there is one, joins the others. */
  method GetInto(manager: PmCertManager, retriever: PmCertRetrieverImpl, arrays: seq<array<Option<nat>>>, wanted: bool,
                 ghost held: seq<seq<nat>>)
    returns (arrays': seq<array<Option<nat>>>)
    requires Connected(manager, retriever) && manager.Valid() && ArraysHold(arrays, held)
    modifies manager.memory
    ensures
      var copies := Fresh(|old(manager.memory.contents)|, |retriever.certificates|);
      && manager.memory.refs == old(manager.memory.refs) + multiset(copies)
      && manager.memory.contents
         == old(manager.memory.contents) + ContentsOf(old(manager.memory.contents), retriever.certificates)
      && ArraysHold(arrays', if wanted && |retriever.certificates| > 0 then held + [copies] else held)
    ensures forall k :: 0 <= k < |arrays'| ==> arrays'[k] in arrays || fresh(arrays'[k])
  {
    ghost var copies := Fresh(|manager.memory.contents|, |retriever.certificates|);
    var _, certificates, _ := manager.GetSslCertificates(wanted);
    if certificates == null {
      return arrays;
    }
    ArraysHoldSnoc(arrays, held, certificates, copies);
    return arrays + [certificates];
  }

  method PerformGet(manager: PmCertManager, retriever: PmCertRetrieverImpl, arrays: seq<array<Option<nat>>>,
                    wanted: bool, ghost h: Holdings)
    returns (arrays': seq<array<Option<nat>>>)
    requires Represents(manager, retriever, arrays, h) && Sound(h)
    modifies manager.memory
    ensures Represents(manager, retriever, arrays', Perform(h, Get(wanted)))
    ensures forall k :: 0 <= k < |arrays'| ==> arrays'[k] in arrays || fresh(arrays'[k])
  {
    ListExists(h);
    GetIs(h, wanted);
    arrays' := GetInto(manager, retriever, arrays, wanted, h.arrays);
  }

  lemma ArraysHoldWithout(arrays: seq<array<Option<nat>>>, held: seq<seq<nat>>, k: nat)
    requires k < |arrays| == |held| && Distinct(arrays)
    requires forall i :: 0 <= i < |arrays| && i != k ==> ArrayHolds(arrays[i], held[i])
    ensures ArraysHold(Without(arrays, k), Without(held, k))
  {
  }

  /** Releases one of several arrays; the others are as they were. */
  method ReleaseOne(manager: PmCertManager, arrays: seq<array<Option<nat>>>, k: nat, ghost held: seq<seq<nat>>)
    requires ArraysHold(arrays, held) && k < |arrays| && multiset(held[k]) <= manager.memory.refs
    modifies manager.memory`refs, arrays[k]
    ensures manager.memory.refs == old(manager.memory.refs) - multiset(held[k])
    ensures forall i :: 0 <= i < |arrays| && i != k ==> ArrayHolds(arrays[i], held[i])
  {
    HeldAll(arrays[k][..], held[k]);
    assert arrays[k][..arrays[k].Length] == arrays[k][..];
    manager.ReleaseSslCertificates(arrays[k], arrays[k].Length);
    forall i | 0 <= i < |arrays| && i != k ensures ArrayHolds(arrays[i], held[i]) {
      assert arrays[i] != arrays[k] by {
        assert Distinct(arrays);
      }
      assert old(ArrayHolds(arrays[i], held[i]));
    }
  }

  method ReleaseFrom(manager: PmCertManager, arrays: seq<array<Option<nat>>>, k: nat, ghost held: seq<seq<nat>>)
    returns (arrays': seq<array<Option<nat>>>)
    requires ArraysHold(arrays, held) && k < |arrays| && multiset(held[k]) <= manager.memory.refs
    modifies manager.memory`refs, arrays[k]
    ensures manager.memory.refs == old(manager.memory.refs) - multiset(held[k])
    ensures ArraysHold(arrays', Without(held, k))
    ensures forall i :: 0 <= i < |arrays'| ==> arrays'[i] in arrays
  {
    ReleaseOne(manager, arrays, k, held);
    ArraysHoldWithout(arrays, held, k);
    return Without(arrays, k);
  }

  lemma ReleaseIs(h: Holdings, k: nat)
    requires k < |h.arrays|
    ensures
      var h' := Perform(h, Release(k));
      && h'.refs == h.refs - multiset(h.arrays[k]) && h'.contents == h.contents && h'.list == h.list
      && h'.arrays == Without(h.arrays, k)
  {
  }

  method PerformRelease(manager: PmCertManager, retriever: PmCertRetrieverImpl, arrays: seq<array<Option<nat>>>, k: nat,
                        ghost h: Holdings)
    returns (arrays': seq<array<Option<nat>>>)
    requires Represents(manager, retriever, arrays, h) && Sound(h) && k < |h.arrays|
    modifies manager.memory`refs, arrays[k]
    ensures Represents(manager, retriever, arrays', Perform(h, Release(k)))
    ensures forall i :: 0 <= i < |arrays'| ==> arrays'[i] in arrays
  {
    ArrayExists(h, k);
    ReleaseIs(h, k);
    arrays' := ReleaseFrom(manager, arrays, k, h.arrays);
  }

  /** One call, as Perform says. */
  method PerformCall(manager: PmCertManager, retriever: PmCertRetrieverImpl, arrays: seq<array<Option<nat>>>, c: Call,
                     ghost h: Holdings)
    returns (arrays': seq<array<Option<nat>>>)
    requires Represents(manager, retriever, arrays, h) && Sound(h) && CanCall(h, c)
    modifies manager.memory, retriever, arrays
    ensures Represents(manager, retriever, arrays', Perform(h, c))
    ensures forall k :: 0 <= k < |arrays'| ==> arrays'[k] in arrays || fresh(arrays'[k])
  {
    arrays' := arrays;
    match c {
      case Load(store) => PerformLoad(manager, retriever, arrays, store, h);
      case Free => PerformFree(manager, retriever, arrays, h);
      case Get(wanted) => arrays' := PerformGet(manager, retriever, arrays, wanted, h);
      case Release(k) => arrays' := PerformRelease(manager, retriever, arrays, k, h);
    }
  }

  /** Any calls, one after the other. */
  method PerformCalls(manager: PmCertManager, retriever: PmCertRetrieverImpl, arrays: seq<array<Option<nat>>>,
                      calls: seq<Call>, ghost h: Holdings)
    requires Represents(manager, retriever, arrays, h) && Sound(h) && CanPerform(h, calls)
    modifies manager.memory, retriever, arrays
    ensures ListHolds(manager.memory, retriever, PerformAll(h, calls))
    decreases |calls|
  {
    if calls != [] {
      CallKeepsKnown(h, calls[0]);
      CallKeepsAccount(h, calls[0]);
      var arrays' := PerformCall(manager, retriever, arrays, calls[0], h);
      PerformCalls(manager, retriever, arrays', calls[1..], Perform(h, calls[0]));
    }
  }

  method Destroy(manager: PmCertManager, retriever: PmCertRetrieverImpl, ghost h: Holdings)
    requires Connected(manager, retriever) && ListHolds(manager.memory, retriever, h) && Sound(h)
    modifies manager.memory, retriever
    ensures manager.memory.refs == Perform(Perform(h, Free), Free).refs
  {
    ListExists(h);
    FreeTwice(h);
    manager.Destroy();
    retriever.Destroy();
  }

  /** A whole life: a manager and its retriever, any calls, and both destructors. When every array was released,
      the memory is empty exactly under the condition above. */
  method Live(calls: seq<Call>) returns (memory: Memory)
    requires CanPerform(NO_HOLDINGS, calls)
    ensures fresh(memory)
    ensures PerformAll(NO_HOLDINGS, calls).arrays == [] ==>
      (memory.refs == multiset{} <==> NothingLeaks(NO_HOLDINGS, calls))
  {
    memory := new Memory();
    var retriever := new PmCertRetrieverImpl(memory);
    var manager := new PmCertManager(memory, retriever);
    PerformCalls(manager, retriever, [], calls, NO_HOLDINGS);
    AccountIsKept(NO_HOLDINGS, calls);
    KnownIsKept(NO_HOLDINGS, calls);
    Destroy(manager, retriever, PerformAll(NO_HOLDINGS, calls));
    DestructorsFreeTwice(PerformAll(NO_HOLDINGS, calls));
    if PerformAll(NO_HOLDINGS, calls).arrays == [] {
      NothingIsLeft(calls);
    }
  }
}
