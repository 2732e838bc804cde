/** The XAuth method registry of the charon daemon.

    The registry is an ordered catalog of entries, each binding an XAuth
    method type, a vendor id and a role to a constructor. Modules register
    constructors (AddMethod), unregister them (RemoveMethod), and the IKEv1
    engine resolves a (type, vendor, role) triple to a fresh method object
    (CreateInstance).

    The reader-writer lock that serialises these operations is not modelled:
    each operation here is a pure function of the catalog, hence atomic.
    Constructors are opaque values of type `C`, compared by equality as the
    C code compares function pointers; invoking a constructor is modelled by
    a total function `construct` passed in by the caller, which may decline
    by returning `None`. `I` stands for `identification_t`, `M` for
    `xauth_method_t`. */
module XauthManager {
  import opened Wrappers

  /** `xauth_type_t`: an XAuth method type, vendor specific if the vendor is set. */
  type XauthType = nat

  /** `u_int32_t vendor`: 0 for the default XAuth methods. */
  newtype Vendor = v: int | 0 <= v < 0x1_0000_0000

  /** `xauth_role_t`: the role of the method a constructor returns. */
  datatype Role = Server | Peer

  /** `xauth_entry_t`: one registration. */
  datatype Entry<C> = Entry(xtype: XauthType, vendor: Vendor, role: Role, ctor: C)
  {
    /** The exact triple comparison of the scan in `create_instance`. */
    predicate Matches(req: Request) {
      xtype == req.xtype && vendor == req.vendor && role == req.role
    }
  }

  /** The arguments of `create_instance`: the triple to resolve and the two
      identities forwarded verbatim to the chosen constructor. */
  datatype Request<I> = Request(xtype: XauthType, vendor: Vendor, role: Role, server: I, peer: I)

  /** The `methods` list of `private_xauth_manager_t`, in insertion order. */
  type Catalog<C> = seq<Entry<C>>

  /** What visiting one entry during the scan yields: the constructor's
      result if the entry matches the request, nothing otherwise. */
  function Attempt<C, I, M>(e: Entry<C>, req: Request<I>, construct: (C, I, I) -> Option<M>): Option<M>
  {
    if e.Matches(req) then construct(e.ctor, req.server, req.peer) else None
  }

  /** True when no entry of `cat` yields a method for `req`: each one either
      does not match or its constructor declines. */
  predicate AllDecline<C, I, M>(cat: Catalog<C>, req: Request<I>, construct: (C, I, I) -> Option<M>)
  {
    forall i :: 0 <= i < |cat| ==> Attempt(cat[i], req, construct).None?
  }

  /** `xauth_manager_create`: a new registry starts with an empty catalog. */
  function Create<C>(): (cat: Catalog<C>)
    ensures |cat| == 0
  {
    []
  }

  /** `add_method`: append one entry at the end of the catalog. */
  function AddMethod<C>(cat: Catalog<C>, xtype: XauthType, vendor: Vendor, role: Role, ctor: C): (r: Catalog<C>)
    ensures |r| == |cat| + 1
    ensures r[..|cat|] == cat
    ensures r[|cat|] == Entry(xtype, vendor, role, ctor)
  {
    cat + [Entry(xtype, vendor, role, ctor)]
  }

  /** `remove_method`: drop every entry whose constructor is `ctor`. The
      survivors keep their order (see XauthManagerLemmas.RemoveMethodAppend). */
  function RemoveMethod<C(==)>(cat: Catalog<C>, ctor: C): (r: Catalog<C>)
    ensures forall i :: 0 <= i < |r| ==> r[i].ctor != ctor
    ensures |r| <= |cat|
  {
    if |cat| == 0 then []
    else
      var head, tail := cat[0], cat[1..];
      var rest := RemoveMethod(tail, ctor);
      if head.ctor == ctor then rest else [head] + rest
  }

  /** `create_instance`: scan in insertion order and return the first
      constructor result that is not NULL among the matching entries. */
  function CreateInstance<C, I, M>(cat: Catalog<C>, req: Request<I>, construct: (C, I, I) -> Option<M>): (r: Option<M>)
    ensures r.None? <==> AllDecline(cat, req, construct)
    ensures forall i :: 0 <= i < |cat| && Attempt(cat[i], req, construct).Some? && AllDecline(cat[..i], req, construct)
                        ==> r == Attempt(cat[i], req, construct)
  {
    if |cat| == 0 then None
    else
      var first := Attempt(cat[0], req, construct);
      var rest := CreateInstance(cat[1..], req, construct);
      assert forall i :: 1 <= i < |cat| ==> cat[..i][1..] == cat[1..][..i - 1];
      if first.Some? then first else rest
  }

  /** The remove loop of `remove_method` as written: walk the list with an
      enumerator and `remove_at` every entry whose constructor is `ctor`. */
  method RemoveMethodScan<C(==)>(cat: Catalog<C>, ctor: C) returns (list: Catalog<C>)
    ensures list == RemoveMethod(cat, ctor)
  {
    list := cat;
    var i := 0;                        // the enumerator position in `list`
    ghost var j := 0;                  // how many entries of `cat` were visited
    ghost var kept: Catalog<C> := [];  // the visited entries that survived
    while i < |list|
      invariant 0 <= j <= |cat|
      invariant kept == RemoveMethod(cat[..j], ctor)
      invariant list == kept + cat[j..]
      invariant i == |kept|
      decreases |cat| - j
    {
      SplitAt(kept, cat, j);
      RemoveMethodPrefix(cat, j, ctor);
      if list[i].ctor == ctor {
        list := list[..i] + list[i + 1..];
      } else {
        kept := kept + [cat[j]];
        i := i + 1;
      }
      j := j + 1;
    }
    assert cat[..j] == cat;
  }

  /** The enumerator's view of the list `kept + cat[j..]` at position
      `|kept|`: it sees `cat[j]`, removing that element leaves
      `kept + cat[j + 1..]`, and stepping over it leaves the same list split
      one position later. */
  lemma SplitAt<T>(kept: seq<T>, cat: seq<T>, j: nat)
    requires j < |cat|
    ensures (kept + cat[j..])[|kept|] == cat[j]
    ensures (kept + cat[j..])[..|kept|] + (kept + cat[j..])[|kept| + 1..] == kept + cat[j + 1..]
    ensures kept + cat[j..] == (kept + [cat[j]]) + cat[j + 1..]
  {
    assert cat[j..] == [cat[j]] + cat[j + 1..];
  }

  /** Extending the visited prefix of `cat` by one entry. */
  lemma RemoveMethodPrefix<C>(cat: Catalog<C>, j: nat, ctor: C)
    requires j < |cat|
    ensures RemoveMethod(cat[..j + 1], ctor)
            == RemoveMethod(cat[..j], ctor) + (if cat[j].ctor == ctor then [] else [cat[j]])
  {
    assert cat[..j + 1] == cat[..j] + [cat[j]];
    RemoveMethodSnoc(cat[..j], cat[j], ctor);
  }

  /** Removing from a catalog extended by one entry. */
  lemma {:induction false} RemoveMethodSnoc<C>(cat: Catalog<C>, e: Entry<C>, ctor: C)
    ensures RemoveMethod(cat + [e], ctor)
            == RemoveMethod(cat, ctor) + (if e.ctor == ctor then [] else [e])
    decreases |cat|
  {
    if |cat| == 0 {
      assert cat + [e] == [e];
      assert [e][1..] == [];
    } else {
      assert (cat + [e])[1..] == cat[1..] + [e];
      RemoveMethodSnoc(cat[1..], e, ctor);
    }
  }

  /** Resolving the catalog from position `i` on visits entry `i` first. */
  lemma CreateInstanceStep<C, I, M>(cat: Catalog<C>, i: nat, req: Request<I>, construct: (C, I, I) -> Option<M>)
    requires i < |cat|
    ensures CreateInstance(cat[i..], req, construct)
            == if Attempt(cat[i], req, construct).Some? then Attempt(cat[i], req, construct)
               else CreateInstance(cat[i + 1..], req, construct)
  {
    assert cat[i..][0] == cat[i] && cat[i..][1..] == cat[i + 1..];
  }

  /** The indices below `n` of the entries of `cat` that match `req`, in
      catalog order (see MatchingIndicesSpec). */
  function MatchingIndices<C, I>(cat: Catalog<C>, req: Request<I>, n: nat): seq<nat>
    requires n <= |cat|
  {
    if n == 0 then []
    else MatchingIndices(cat, req, n - 1) + (if cat[n - 1].Matches(req) then [n - 1] else [])
  }

  /** MatchingIndices lists exactly the matching entries below `n`, each
      once, in increasing order. */
  lemma {:induction false} MatchingIndicesSpec<C, I>(cat: Catalog<C>, req: Request<I>, n: nat)
    requires n <= |cat|
    ensures forall k :: 0 <= k < |MatchingIndices(cat, req, n)|
                        ==> MatchingIndices(cat, req, n)[k] < n && cat[MatchingIndices(cat, req, n)[k]].Matches(req)
    ensures forall a, b :: 0 <= a < b < |MatchingIndices(cat, req, n)|
                           ==> MatchingIndices(cat, req, n)[a] < MatchingIndices(cat, req, n)[b]
    ensures forall j :: 0 <= j < n && cat[j].Matches(req) ==> j in MatchingIndices(cat, req, n)
  {
    if n > 0 {
      MatchingIndicesSpec(cat, req, n - 1);
      var prev := MatchingIndices(cat, req, n - 1);
      assert MatchingIndices(cat, req, n) == prev + (if cat[n - 1].Matches(req) then [n - 1] else []);
    }
  }

  /** The state of the scan of `create_instance` before visiting entry
      `i`: `invoked` lists the matching entries below `i`, all of which
      declined, so the overall result is that of the rest of the catalog. */
  ghost predicate Scanned<C, I, M>(cat: Catalog<C>, req: Request<I>, construct: (C, I, I) -> Option<M>,
                                   invoked: seq<nat>, i: nat)
    requires i <= |cat|
  {
    && invoked == MatchingIndices(cat, req, i)
    && (forall k :: 0 <= k < |invoked| ==> invoked[k] < i && Attempt(cat[invoked[k]], req, construct).None?)
    && CreateInstance(cat, req, construct) == CreateInstance(cat[i..], req, construct)
  }

  /** Visiting an entry that yields nothing moves the scan on by one. */
  lemma ScannedStep<C, I, M>(cat: Catalog<C>, req: Request<I>, construct: (C, I, I) -> Option<M>,
                             invoked: seq<nat>, i: nat)
    requires i < |cat|
    requires Scanned(cat, req, construct, invoked, i)
    requires Attempt(cat[i], req, construct).None?
    ensures Scanned(cat, req, construct, invoked + (if cat[i].Matches(req) then [i] else []), i + 1)
  {
    CreateInstanceStep(cat, i, req, construct);
    var next := invoked + (if cat[i].Matches(req) then [i] else []);
    assert forall k :: 0 <= k < |invoked| ==> next[k] == invoked[k];
  }

  /** A matching entry whose constructor succeeds ends the scan with the
      specified result; every earlier call declined. */
  lemma ScannedSuccess<C, I, M>(cat: Catalog<C>, req: Request<I>, construct: (C, I, I) -> Option<M>,
                                invoked: seq<nat>, i: nat)
    requires i < |cat|
    requires Scanned(cat, req, construct, invoked, i)
    requires cat[i].Matches(req) && construct(cat[i].ctor, req.server, req.peer).Some?
    ensures var found, last := construct(cat[i].ctor, req.server, req.peer), invoked + [i];
            && found == CreateInstance(cat, req, construct)
            && (forall k :: 0 <= k < |last| ==> last[k] < |cat|)
            && last == MatchingIndices(cat, req, i + 1)
            && found == Attempt(cat[last[|last| - 1]], req, construct)
            && (forall k :: 0 <= k < |last| - 1 ==> Attempt(cat[last[k]], req, construct).None?)
  {
    CreateInstanceStep(cat, i, req, construct);
    var last := invoked + [i];
    assert forall k :: 0 <= k < |invoked| ==> last[k] == invoked[k];
  }

  /** A scan that reaches the end of the catalog found nothing and called
      every matching entry, each of which declined. */
  lemma ScannedAll<C, I, M>(cat: Catalog<C>, req: Request<I>, construct: (C, I, I) -> Option<M>,
                            invoked: seq<nat>)
    requires Scanned(cat, req, construct, invoked, |cat|)
    ensures CreateInstance(cat, req, construct) == None
    ensures forall k :: 0 <= k < |invoked| ==> invoked[k] < |cat|
    ensures invoked == MatchingIndices(cat, req, |cat|)
    ensures forall k :: 0 <= k < |invoked| ==> Attempt(cat[invoked[k]], req, construct).None?
  {
    assert cat[|cat|..] == [];
  }

  /** The scan loop of `create_instance` as written. Besides the method it
      returns the indices of the entries whose constructor it invoked, in
      call order. The C function returns no such list; `invoked` exists
      only to record which constructors the scan called. If the scan found
      nothing it called every matching entry; if it found a method it
      called every matching entry up to the one that succeeded and none
      after it; every call but a successful last one declined. */
  method CreateInstanceScan<C, I, M>(cat: Catalog<C>, req: Request<I>, construct: (C, I, I) -> Option<M>)
    returns (found: Option<M>, invoked: seq<nat>)
    ensures found == CreateInstance(cat, req, construct)
    ensures forall k :: 0 <= k < |invoked| ==> invoked[k] < |cat|
    ensures found.None? ==> invoked == MatchingIndices(cat, req, |cat|)
    ensures found.Some? ==> && |invoked| > 0
                            && invoked == MatchingIndices(cat, req, invoked[|invoked| - 1] + 1)
                            && found == Attempt(cat[invoked[|invoked| - 1]], req, construct)
    ensures forall k :: 0 <= k < |invoked| && (found.None? || k < |invoked| - 1)
                        ==> Attempt(cat[invoked[k]], req, construct).None?
  {
    found := None;
    invoked := [];
    var i := 0;
    while i < |cat|
      invariant 0 <= i <= |cat|
      invariant found.None?
      invariant Scanned(cat, req, construct, invoked, i)
    {
      if cat[i].Matches(req) {
        found := construct(cat[i].ctor, req.server, req.peer);
        if found.Some? {
          ScannedSuccess(cat, req, construct, invoked, i);
          invoked := invoked + [i];
          return;
        }
        ScannedStep(cat, req, construct, invoked, i);
        invoked := invoked + [i];
      } else {
        ScannedStep(cat, req, construct, invoked, i);
      }
      i := i + 1;
    }
    ScannedAll(cat, req, construct, invoked);
  }
}
