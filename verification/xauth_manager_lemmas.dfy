/** Properties of the XAuth method registry that relate several operations:
    what unregistering keeps and in which order, how registration order acts
    as priority during resolution, and how unregistering a constructor
    affects later resolutions. */
module XauthManagerLemmas {
  import opened Wrappers
  import opened XauthManager

  /** `remove_method` keeps every other entry as often as it occurred, and
      never invents one. */
  lemma RemoveMethodContents<C>(cat: Catalog<C>, ctor: C)
    ensures multiset(RemoveMethod(cat, ctor)) <= multiset(cat)
    ensures forall i :: 0 <= i < |cat| && cat[i].ctor != ctor
                        ==> multiset(RemoveMethod(cat, ctor))[cat[i]] == multiset(cat)[cat[i]]
  {
    RemoveMethodSubMultiset(cat, ctor);
    forall i | 0 <= i < |cat| && cat[i].ctor != ctor
      ensures multiset(RemoveMethod(cat, ctor))[cat[i]] == multiset(cat)[cat[i]]
    {
      RemoveMethodKeepsCount(cat, ctor, cat[i]);
    }
  }

  /** Every entry left by `remove_method` comes from the catalog. */
  lemma {:induction false} RemoveMethodSubMultiset<C>(cat: Catalog<C>, ctor: C)
    ensures multiset(RemoveMethod(cat, ctor)) <= multiset(cat)
    decreases |cat|
  {
    if |cat| > 0 {
      RemoveMethodSubMultiset(cat[1..], ctor);
      assert cat == [cat[0]] + cat[1..];
      assert multiset(cat) == multiset{cat[0]} + multiset(cat[1..]);
      if cat[0].ctor != ctor {
        var rest := RemoveMethod(cat[1..], ctor);
        assert multiset([cat[0]] + rest) == multiset{cat[0]} + multiset(rest);
      }
    }
  }

  /** An entry with another constructor occurs as often after `remove_method`
      as before. */
  lemma {:induction false} RemoveMethodKeepsCount<C>(cat: Catalog<C>, ctor: C, e: Entry<C>)
    requires e.ctor != ctor
    ensures multiset(RemoveMethod(cat, ctor))[e] == multiset(cat)[e]
    decreases |cat|
  {
    if |cat| > 0 {
      RemoveMethodKeepsCount(cat[1..], ctor, e);
      assert cat == [cat[0]] + cat[1..];
      assert multiset(cat) == multiset{cat[0]} + multiset(cat[1..]);
      if cat[0].ctor != ctor {
        var rest := RemoveMethod(cat[1..], ctor);
        assert multiset([cat[0]] + rest) == multiset{cat[0]} + multiset(rest);
      }
    }
  }

  /** `remove_method` filters: it distributes over concatenation, so the
      surviving entries keep their relative order. */
  lemma {:induction false} RemoveMethodAppend<C>(a: Catalog<C>, b: Catalog<C>, ctor: C)
    ensures RemoveMethod(a + b, ctor) == RemoveMethod(a, ctor) + RemoveMethod(b, ctor)
    decreases |a|
  {
    if |a| == 0 {
      assert a + b == b;
    } else {
      assert (a + b)[0] == a[0];
      assert (a + b)[1..] == a[1..] + b;
      RemoveMethodAppend(a[1..], b, ctor);
    }
  }

  /** `remove_method` changes nothing exactly when no entry carries the
      constructor. */
  lemma {:induction false} RemoveMethodNoop<C>(cat: Catalog<C>, ctor: C)
    ensures RemoveMethod(cat, ctor) == cat <==> forall i :: 0 <= i < |cat| ==> cat[i].ctor != ctor
    decreases |cat|
  {
    if |cat| > 0 {
      RemoveMethodNoop(cat[1..], ctor);
      if forall i :: 0 <= i < |cat| ==> cat[i].ctor != ctor {
        assert forall i :: 0 <= i < |cat[1..]| ==> cat[1..][i].ctor != ctor by {
          forall i | 0 <= i < |cat[1..]| ensures cat[1..][i].ctor != ctor {
            assert cat[1..][i] == cat[i + 1];
          }
        }
        assert cat == [cat[0]] + cat[1..];
      }
    }
  }

  /** Unregistering twice is unregistering once. */
  lemma RemoveMethodIdempotent<C>(cat: Catalog<C>, ctor: C)
    ensures RemoveMethod(RemoveMethod(cat, ctor), ctor) == RemoveMethod(cat, ctor)
  {
  }

  /** Unregistering two constructors gives the same catalog in either order. */
  lemma {:induction false} RemoveMethodCommutes<C>(cat: Catalog<C>, c1: C, c2: C)
    ensures RemoveMethod(RemoveMethod(cat, c1), c2) == RemoveMethod(RemoveMethod(cat, c2), c1)
    decreases |cat|
  {
    if |cat| > 0 {
      RemoveMethodCommutes(cat[1..], c1, c2);
      var e := [cat[0]];
      assert cat == e + cat[1..];
      RemoveMethodAppend(e, cat[1..], c1);
      RemoveMethodAppend(e, cat[1..], c2);
      RemoveMethodAppend(RemoveMethod(e, c1), RemoveMethod(cat[1..], c1), c2);
      RemoveMethodAppend(RemoveMethod(e, c2), RemoveMethod(cat[1..], c2), c1);
    }
  }

  /** Unregistering right after a registration: the new entry goes away if
      it carries the constructor and stays last otherwise. */
  lemma RemoveMethodAfterAdd<C>(cat: Catalog<C>, xtype: XauthType, vendor: Vendor, role: Role, ctor: C, gone: C)
    ensures RemoveMethod(AddMethod(cat, xtype, vendor, role, ctor), gone)
            == if ctor == gone then RemoveMethod(cat, gone)
               else AddMethod(RemoveMethod(cat, gone), xtype, vendor, role, ctor)
  {
    RemoveMethodSnoc(cat, Entry(xtype, vendor, role, ctor), gone);
  }

  /** Registering a constructor not yet present and unregistering it again
      restores the catalog. */
  lemma AddThenRemoveRestores<C>(cat: Catalog<C>, xtype: XauthType, vendor: Vendor, role: Role, ctor: C)
    requires forall i :: 0 <= i < |cat| ==> cat[i].ctor != ctor
    ensures RemoveMethod(AddMethod(cat, xtype, vendor, role, ctor), ctor) == cat
  {
    RemoveMethodAfterAdd(cat, xtype, vendor, role, ctor, ctor);
    RemoveMethodNoop(cat, ctor);
  }

  /** Registration order is priority: the entries of `b` are consulted only
      when every entry of `a` has yielded nothing. */
  lemma {:induction false} CreateInstanceAppend<C, I, M>(a: Catalog<C>, b: Catalog<C>, req: Request<I>,
                                                         construct: (C, I, I) -> Option<M>)
    ensures CreateInstance(a + b, req, construct)
            == if CreateInstance(a, req, construct).Some? then CreateInstance(a, req, construct)
               else CreateInstance(b, req, construct)
    decreases |a|
  {
    if |a| == 0 {
      assert a + b == b;
    } else {
      assert (a + b)[0] == a[0];
      assert (a + b)[1..] == a[1..] + b;
      CreateInstanceAppend(a[1..], b, req, construct);
    }
  }

  /** A later registration never overrides an earlier one that succeeds; it
      is used only when everything registered before it yields nothing. */
  lemma {:induction false} CreateInstanceAfterAdd<C, I, M>(cat: Catalog<C>, xtype: XauthType, vendor: Vendor, role: Role, ctor: C,
                                        req: Request<I>, construct: (C, I, I) -> Option<M>)
    ensures CreateInstance(AddMethod(cat, xtype, vendor, role, ctor), req, construct)
            == if CreateInstance(cat, req, construct).Some? then CreateInstance(cat, req, construct)
               else Attempt(Entry(xtype, vendor, role, ctor), req, construct)
  {
    var e := Entry(xtype, vendor, role, ctor);
    CreateInstanceAppend(cat, [e], req, construct);
    assert [e][1..] == [];
  }

  /** An entry whose type, vendor id or role differs from the request is
      never used: inserting it anywhere leaves every resolution unchanged.
      In particular an entry of vendor 5 is invisible to a request with
      any other vendor id, whatever its type and role. */
  lemma CreateInstanceIgnoresMismatch<C, I, M>(a: Catalog<C>, e: Entry<C>, b: Catalog<C>, req: Request<I>,
                                               construct: (C, I, I) -> Option<M>)
    requires !e.Matches(req)
    ensures CreateInstance(a + [e] + b, req, construct) == CreateInstance(a + b, req, construct)
  {
    CreateInstanceAppend(a + [e], b, req, construct);
    CreateInstanceAppend(a, [e], req, construct);
    CreateInstanceAppend(a, b, req, construct);
    assert [e][1..] == [];
  }

  /** The constructor table seen through an unregistration: `gone` now
      always declines, every other constructor behaves as before. */
  function WithoutCtor<C(==), I, M>(construct: (C, I, I) -> Option<M>, gone: C): (C, I, I) -> Option<M>
  {
    (c: C, s: I, p: I) => if c == gone then None else construct(c, s, p)
  }

  /** Resolving after `remove_method(gone)` is resolving on the old catalog
      with `gone` declining: unregistering touches nothing but `gone`. */
  lemma {:induction false} CreateInstanceAfterRemove<C, I, M>(cat: Catalog<C>, gone: C, req: Request<I>,
                                                                  construct: (C, I, I) -> Option<M>)
    ensures CreateInstance(RemoveMethod(cat, gone), req, construct)
            == CreateInstance(cat, req, WithoutCtor(construct, gone))
    decreases |cat|
  {
    if |cat| > 0 {
      var e := [cat[0]];
      assert cat == e + cat[1..];
      RemoveMethodAppend(e, cat[1..], gone);
      CreateInstanceAfterRemove(cat[1..], gone, req, construct);
      CreateInstanceAppend(RemoveMethod(e, gone), RemoveMethod(cat[1..], gone), req, construct);
      CreateInstanceAppend(e, cat[1..], req, WithoutCtor(construct, gone));
      assert e[1..] == [];
    }
  }

  /** Once every entry that could serve a request carries `gone`, however
      often it was registered, unregistering `gone` leaves that request
      unresolvable. */
  lemma RemovedDuplicatesUnresolvable<C, I, M>(cat: Catalog<C>, gone: C, req: Request<I>,
                                               construct: (C, I, I) -> Option<M>)
    requires forall i :: 0 <= i < |cat| && cat[i].Matches(req) ==> cat[i].ctor == gone
    ensures CreateInstance(RemoveMethod(cat, gone), req, construct) == None
  {
    var r := RemoveMethod(cat, gone);
    RemoveMethodSubMultiset(cat, gone);
    forall i | 0 <= i < |r| ensures Attempt(r[i], req, construct).None? {
      assert r[i] in multiset(cat);
    }
  }

  /** Two constructors for the walk-through below: `Declining` never
      produces a method, `Working` always does. */
  datatype ExampleCtor = Declining | Working

  function ExampleConstruct(c: ExampleCtor, server: int, peer: int): Option<string>
  {
    if c == Declining then None else Some("working")
  }

  /** A walk-through: register Declining and then Working for the same
      triple; resolution falls through to Working. Unregistering Declining
      leaves only Working, which still resolves; unregistering Working too
      leaves nothing. A vendor-specific registration is not found by a
      request for the default vendor. */
  lemma ExampleWalkThrough()
    ensures var req := Request(1, 0, Server, 10, 20);
            var both := AddMethod(AddMethod(Create(), 1, 0, Server, Declining), 1, 0, Server, Working);
            var one := RemoveMethod(both, Declining);
            var none := RemoveMethod(one, Working);
            && CreateInstance(both, req, ExampleConstruct) == Some("working")
            && one == [Entry(1, 0, Server, Working)]
            && CreateInstance(one, req, ExampleConstruct) == Some("working")
            && none == []
            && CreateInstance(none, req, ExampleConstruct) == None
            && CreateInstance(AddMethod(Create(), 1, 5, Server, Working), req, ExampleConstruct) == None
  {
  }
}
