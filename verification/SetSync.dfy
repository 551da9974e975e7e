/** Making one kernel set hold what is wanted, entry by entry. */
module SetSync {
  import opened Names
  import opened Netfilter
  import opened Indexes
  import opened IndexMaps
  import opened Reconciler
  import opened Kernels

  /**
   * Never a moment at which the set lacks an entry it had and should have, or has one it neither had
   * nor should have.
   */
  ghost predicate Between(was: set<string>, wanted: set<string>, now: set<string>) {
    was * wanted <= now <= was + wanted
  }

  /**
   * The changes lead from the old members to the wanted ones, no two for one entry, staying between
   * the two all the way.
   */
  ghost predicate Reconciles(was: set<string>, wanted: set<string>, name: SetName, ops: seq<Op>) {
    && Replay(was, name, ops) == wanted
    && (forall i :: 0 <= i <= |ops| ==> Between(was, wanted, Replay(was, name, ops[..i])))
    && |ops| == |was - wanted| + |wanted - was|
  }

  ghost predicate Useful(was: set<string>, wanted: set<string>, name: SetName, op: Op) {
    op.name == name && if op.Add? then op.entry in wanted - was else op.entry in was - wanted
  }

  lemma {:induction false} UsefulBetween(was: set<string>, wanted: set<string>, name: SetName, ops: seq<Op>)
    requires forall i :: 0 <= i < |ops| ==> Useful(was, wanted, name, ops[i])
    ensures forall i :: 0 <= i <= |ops| ==> Between(was, wanted, Replay(was, name, ops[..i]))
  {
    if ops == [] {
      assert forall i :: 0 <= i <= 0 ==> ops[..i] == [];
    } else {
      var n := |ops| - 1;
      UsefulBetween(was, wanted, name, ops[..n]);
      forall i | 0 <= i <= |ops| ensures Between(was, wanted, Replay(was, name, ops[..i])) {
        if i <= n {
          assert ops[..n][..i] == ops[..i];
        } else {
          assert ops[..i] == ops && ops[..n][..n] == ops[..n];
          assert Useful(was, wanted, name, ops[n]);
        }
      }
    }
  }

  lemma SyncedSame(sets: Sets, name: SetName, members: set<string>)
    requires name in sets && members == sets[name].members
    ensures Synced(sets, name, members) == sets
  {}

  lemma SyncedTwice(sets: Sets, name: SetName, a: set<string>, b: set<string>)
    ensures Synced(Synced(sets, name, a), name, b) == Synced(sets, name, b)
  {}

  lemma SyncedAdd(sets: Sets, name: SetName, was: set<string>, added: set<string>, e: string)
    ensures Synced(Synced(sets, name, was + added), name, was + added + {e}) == Synced(sets, name, was + (added + {e}))
  {
    SyncedTwice(sets, name, was + added, was + added + {e});
    assert was + added + {e} == was + (added + {e});
  }

  lemma SyncedDel(sets: Sets, name: SetName, was: set<string>, gone: set<string>, e: string)
    ensures Synced(Synced(sets, name, was - gone), name, was - gone - {e}) == Synced(sets, name, was - (gone + {e}))
  {
    SyncedTwice(sets, name, was - gone, was - gone - {e});
    assert was - gone - {e} == was - (gone + {e});
  }

  lemma SyncedParts(sets: Sets, name: SetName, was: set<string>, wanted: set<string>)
    ensures Synced(Synced(sets, name, was * wanted), name, was * wanted + (wanted - was)) == Synced(sets, name, wanted)
  {
    SyncedTwice(sets, name, was * wanted, was * wanted + (wanted - was));
    assert was * wanted + (wanted - was) == wanted;
  }

  lemma ReplayMore(was: set<string>, name: SetName, ops: seq<Op>, op: Op)
    ensures Replay(was, name, ops + [op])
         == if op.name != name then Replay(was, name, ops)
            else if op.Add? then Replay(was, name, ops) + {op.entry} else Replay(was, name, ops) - {op.entry}
  {
    assert (ops + [op])[..|ops|] == ops;
  }

  /** Some members deleted, each once. */
  ghost predicate Deleting(was: set<string>, name: SetName, gone: set<string>, ops: seq<Op>) {
    && Replay(was, name, ops) == was - gone && |ops| == |gone|
    && forall i :: 0 <= i < |ops| ==> ops[i].Del? && ops[i].name == name && ops[i].entry in gone
  }

  ghost predicate Adding(was: set<string>, name: SetName, added: set<string>, ops: seq<Op>) {
    && Replay(was, name, ops) == was + added && |ops| == |added|
    && forall i :: 0 <= i < |ops| ==> ops[i].Add? && ops[i].name == name && ops[i].entry in added
  }

  lemma DeleteMore(was: set<string>, name: SetName, gone: set<string>, ops: seq<Op>, e: string)
    requires Deleting(was, name, gone, ops) && e !in gone
    ensures Deleting(was, name, gone + {e}, ops + [Del(name, e)])
  {
    ReplayMore(was, name, ops, Del(name, e));
  }

  lemma AddMore(was: set<string>, name: SetName, added: set<string>, ops: seq<Op>, e: string)
    requires Adding(was, name, added, ops) && e !in added
    ensures Adding(was, name, added + {e}, ops + [Add(name, e)])
  {
    ReplayMore(was, name, ops, Add(name, e));
  }

  /** One entry deleted, in the kernel and in the record of what has been done. */
  method DeleteOne(kernel: Kernel, name: SetName, e: string, ghost sets: Sets, ghost log: seq<Op>,
                   ghost gone: set<string>, ghost ops: seq<Op>) returns (ghost ops': seq<Op>)
    requires kernel.log == log + ops
    requires name in sets && e in sets[name].members && e !in gone
    requires kernel.sets == Synced(sets, name, sets[name].members - gone)
             && Deleting(sets[name].members, name, gone, ops)
    modifies kernel`sets, kernel`log
    ensures kernel.sets == Synced(sets, name, sets[name].members - (gone + {e}))
            && Deleting(sets[name].members, name, gone + {e}, ops')
    ensures kernel.log == log + ops'
  {
    kernel.DelEntry(name, e);
    SyncedDel(sets, name, sets[name].members, gone, e);
    DeleteMore(sets[name].members, name, gone, ops, e);
    ops' := ops + [Del(name, e)];
  }

  method AddOne(kernel: Kernel, name: SetName, e: string, ghost sets: Sets, ghost log: seq<Op>,
                ghost added: set<string>, ghost ops: seq<Op>) returns (ghost ops': seq<Op>)
    requires kernel.log == log + ops
    requires name in sets && e !in added
    requires kernel.sets == Synced(sets, name, sets[name].members + added)
             && Adding(sets[name].members, name, added, ops)
    modifies kernel`sets, kernel`log
    ensures kernel.sets == Synced(sets, name, sets[name].members + (added + {e}))
            && Adding(sets[name].members, name, added + {e}, ops')
    ensures kernel.log == log + ops'
  {
    kernel.AddEntry(name, e);
    SyncedAdd(sets, name, sets[name].members, added, e);
    AddMore(sets[name].members, name, added, ops, e);
    ops' := ops + [Add(name, e)];
  }

  function Unwanted(entries: seq<string>, wanted: set<string>): set<string> { set e | e in entries && e !in wanted }

  lemma UnwantedMore(entries: seq<string>, wanted: set<string>, i: nat)
    requires i < |entries| && forall j, k :: 0 <= j < k < |entries| ==> entries[j] != entries[k]
    ensures entries[i] !in Unwanted(entries[..i], wanted)
    ensures Unwanted(entries[..i + 1], wanted) == Unwanted(entries[..i], wanted) + if entries[i] in wanted then {}
                else {entries[i]}
  {
    assert entries[..i + 1] == entries[..i] + [entries[i]];
  }

  /** Deletes what is not wanted. */
  method DeleteUnused(kernel: Kernel, name: SetName, kernelEntries: seq<string>, wanted: set<string>)
                      returns (ghost ops: seq<Op>)
    requires name in kernel.sets
    requires forall e :: e in kernelEntries <==> e in kernel.sets[name].members
    requires forall i, j :: 0 <= i < j < |kernelEntries| ==> kernelEntries[i] != kernelEntries[j]
    modifies kernel`sets, kernel`log
    ensures kernel.sets == Synced(old(kernel.sets), name, old(kernel.sets)[name].members * wanted)
    ensures kernel.log == old(kernel.log) + ops
    ensures Deleting(old(kernel.sets)[name].members, name, old(kernel.sets)[name].members - wanted, ops)
  {
    ghost var sets, log, was := kernel.sets, kernel.log, kernel.sets[name].members;
    ops := [];
    ghost var gone: set<string> := {};
    SyncedSame(sets, name, was - gone);
    for i := 0 to |kernelEntries|
      invariant kernel.sets == Synced(sets, name, was - gone) && Deleting(was, name, gone, ops)
      invariant gone == Unwanted(kernelEntries[..i], wanted) && kernel.log == log + ops
    {
      var e := kernelEntries[i];
      UnwantedMore(kernelEntries, wanted, i);
      if e !in wanted {
        ops := DeleteOne(kernel, name, e, sets, log, gone, ops);
        gone := gone + {e};
      }
    }
    assert kernelEntries[..|kernelEntries|] == kernelEntries;
    assert gone == was - wanted;
    assert was - gone == was * wanted;
  }

  lemma MissingMore(missing: set<string>, added: set<string>, rest: set<string>, e: string)
    requires added == missing - rest && e in rest
    ensures e !in added && missing - (rest - {e}) == if e in missing then added + {e} else added
  {}

  /** Adds what the listing did not have. */
  method AddMissing(kernel: Kernel, name: SetName, kernelEntries: seq<string>, wanted: set<string>,
                    ghost missing: set<string>) returns (ghost ops: seq<Op>)
    requires name in kernel.sets && missing == set e | e in wanted && e !in kernelEntries
    modifies kernel`sets, kernel`log
    ensures kernel.sets == Synced(old(kernel.sets), name, old(kernel.sets)[name].members + missing)
    ensures kernel.log == old(kernel.log) + ops
    ensures Adding(old(kernel.sets)[name].members, name, missing, ops)
  {
    ghost var sets, log, was := kernel.sets, kernel.log, kernel.sets[name].members;
    var rest := wanted;
    ops := [];
    ghost var added: set<string> := {};
    SyncedSame(sets, name, was + added);
    while rest != {}
      invariant rest <= wanted && added == missing - rest
      invariant kernel.sets == Synced(sets, name, was + added) && Adding(was, name, added, ops)
      invariant kernel.log == log + ops
      decreases rest
    {
      var e := Pick(rest);
      MissingMore(missing, added, rest, e);
      if e !in kernelEntries {
        ops := AddOne(kernel, name, e, sets, log, added, ops);
        added := added + {e};
      }
      rest := rest - {e};
    }
    assert added == missing;
  }

  lemma {:induction false} ReplayConcat(was: set<string>, name: SetName, a: seq<Op>, b: seq<Op>)
    ensures Replay(was, name, a + b) == Replay(Replay(was, name, a), name, b)
  {
    if b == [] {
      assert a + b == a;
    } else {
      var n := |b| - 1;
      assert (a + b)[..|a + b| - 1] == a + b[..n];
      ReplayConcat(was, name, a, b[..n]);
    }
  }

  lemma UsefulParts(was: set<string>, wanted: set<string>, name: SetName, gone: set<string>, added: set<string>,
                    a: seq<Op>, b: seq<Op>)
    requires gone == was - wanted && added == wanted - was
    requires forall i :: 0 <= i < |a| ==> a[i].Del? && a[i].name == name && a[i].entry in gone
    requires forall i :: 0 <= i < |b| ==> b[i].Add? && b[i].name == name && b[i].entry in added
    ensures forall i :: 0 <= i < |a + b| ==> Useful(was, wanted, name, (a + b)[i])
  {
    forall i | 0 <= i < |a + b| ensures Useful(was, wanted, name, (a + b)[i]) {
      assert (a + b)[i] == if i < |a| then a[i] else b[i - |a|];
    }
  }

  lemma ReconcilesByParts(was: set<string>, wanted: set<string>, name: SetName, kept: set<string>, gone: set<string>,
                          added: set<string>, a: seq<Op>, b: seq<Op>)
    requires kept == was * wanted && gone == was - wanted && added == wanted - was
    requires Deleting(was, name, gone, a) && Adding(kept, name, added, b)
    ensures Reconciles(was, wanted, name, a + b)
  {
    ReplayConcat(was, name, a, b);
    assert was - gone == kept && kept + added == wanted;
    UsefulParts(was, wanted, name, gone, added, a, b);
    UsefulBetween(was, wanted, name, a + b);
  }

  /** Deletes, then adds. */
  method SyncMembers(kernel: Kernel, name: SetName, wanted: set<string>) returns (ok: bool, ghost ops: seq<Op>)
    modifies kernel`sets, kernel`log
    ensures ok == (name in old(kernel.sets))
    ensures kernel.sets == Synced(old(kernel.sets), name, wanted)
    ensures kernel.log == old(kernel.log) + ops
    ensures if ok then Reconciles(old(kernel.sets)[name].members, wanted, name, ops) else ops == []
  {
    var listed := kernel.ListEntry(name);
    if listed.None? {
      return false, [];
    }
    ghost var was := kernel.sets[name].members;
    ghost var deletions := DeleteUnused(kernel, name, listed.value, wanted);
    ghost var additions := AddMissing(kernel, name, listed.value, wanted, wanted - was);
    SyncedParts(old(kernel.sets), name, was, wanted);
    ReconcilesByParts(was, wanted, name, was * wanted, was - wanted, wanted - was, deletions, additions);
    return true, deletions + additions;
  }

  /**
   * syncIPSetEntry: the set ends with exactly the wanted addresses, by as few changes as the two
   * memberships differ in. A set that does not exist is an error and nothing happens.
   */
  method SyncIPSetEntry(kernel: Kernel, name: SetName, podInfoMap: PodInfos) returns (ok: bool, ghost ops: seq<Op>)
    modifies kernel`sets, kernel`log
    ensures ok == (name in old(kernel.sets))
    ensures kernel.sets == Synced(old(kernel.sets), name, podInfoMap.Keys)
    ensures kernel.log == old(kernel.log) + ops
    ensures if ok then Reconciles(old(kernel.sets)[name].members, podInfoMap.Keys, name, ops) else ops == []
  {
    ok, ops := SyncMembers(kernel, name, podInfoMap.Keys);
  }

  /** syncIPSetEntryForNet: the same for a list of nets, with or without repetition. */
  method SyncIPSetEntryForNet(kernel: Kernel, name: SetName, nets: seq<string>) returns (ok: bool, ghost ops: seq<Op>)
    modifies kernel`sets, kernel`log
    ensures ok == (name in old(kernel.sets))
    ensures kernel.sets == Synced(old(kernel.sets), name, set net | net in nets)
    ensures kernel.log == old(kernel.log) + ops
    ensures if ok then Reconciles(old(kernel.sets)[name].members, (set net | net in nets), name, ops) else ops == []
  {
    var netsMap: set<string> := {};
    for i := 0 to |nets|
      invariant netsMap == set net | net in nets[..i]
    {
      assert nets[..i + 1] == nets[..i] + [nets[i]];
      netsMap := netsMap + {nets[i]};
    }
    assert nets[..|nets|] == nets;
    ok, ops := SyncMembers(kernel, name, netsMap);
  }
}
