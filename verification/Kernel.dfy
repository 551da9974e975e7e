/** The kernel's ipsets and filter table, as the commands the controller issues see them. */
module Kernels {
  import opened Options
  import opened Names
  import opened Netfilter
  import opened Reconciler
  import opened RuleSync

  /** One change of the members of a set. */
  datatype Op = Add(name: SetName, entry: string) | Del(name: SetName, entry: string)

  /** The members of one set after some changes. */
  ghost function Replay(members: set<string>, name: SetName, ops: seq<Op>): set<string> {
    if ops == [] then members
    else
      var before := Replay(members, name, ops[..|ops| - 1]);
      match ops[|ops| - 1]
      case Add(n, entry) => if n == name then before + {entry} else before
      case Del(n, entry) => if n == name then before - {entry} else before
  }

  class Kernel {
    var sets: Sets
    var table: Table
    ghost var log: seq<Op>

    constructor (sets: Sets, table: Table)
      ensures this.sets == sets && this.table == table && log == []
    {
      this.sets, this.table, log := sets, table, [];
    }

    /** ipset create -exist. */
    method CreateIPSet(name: SetName)
      modifies this`sets
      ensures sets == Created(old(sets), name)
    {
      if name !in sets {
        sets := sets[name := IpSet(KindOf(name), {})];
      }
    }

    /** ipset destroy: refused while a rule refers to the set. */
    method DestroyIPSet(name: SetName) returns (ok: bool)
      modifies this`sets
      ensures ok == (name in old(sets) && !SetReferenced(table, name))
      ensures sets == if ok then old(sets) - {name} else old(sets)
    {
      ok := name in sets && !SetReferenced(table, name);
      if ok {
        sets := sets - {name};
      }
    }

    /** ipset add -exist. */
    method AddEntry(name: SetName, entry: string)
      requires name in sets
      modifies this`sets, this`log
      ensures sets == Synced(old(sets), name, old(sets)[name].members + {entry})
      ensures log == old(log) + [Add(name, entry)]
    {
      sets := sets[name := sets[name].(members := sets[name].members + {entry})];
      log := log + [Add(name, entry)];
    }

    /** ipset del, of an entry the set has. */
    method DelEntry(name: SetName, entry: string)
      requires name in sets && entry in sets[name].members
      modifies this`sets, this`log
      ensures sets == Synced(old(sets), name, old(sets)[name].members - {entry})
      ensures log == old(log) + [Del(name, entry)]
    {
      sets := sets[name := sets[name].(members := sets[name].members - {entry})];
      log := log + [Del(name, entry)];
    }

    /** ipset list: the entries once each, in some order; fails when there is no such set. */
    method ListEntry(name: SetName) returns (r: Option<seq<string>>)
      ensures r.None? <==> name !in sets
      ensures r.Some? ==> (forall e :: e in r.value <==> e in sets[name].members)
      ensures r.Some? ==> forall i, j :: 0 <= i < j < |r.value| ==> r.value[i] != r.value[j]
    {
      if name !in sets {
        return None;
      }
      var rest, entries := sets[name].members, [];
      while rest != {}
        invariant rest <= sets[name].members
        invariant forall e :: e in entries <==> e in sets[name].members - rest
        invariant forall i, j :: 0 <= i < j < |entries| ==> entries[i] != entries[j]
        decreases rest
      {
        var e :| e in rest;
        assert e !in entries;
        rest, entries := rest - {e}, entries + [e];
      }
      return Some(entries);
    }

    /** iptables -D with a rule number, counted from one; fails when the chain is shorter. */
    method DeleteRule(c: Chain, number: nat)
      requires c in table && number > 0
      modifies this`table
      ensures table == if number <= |old(table)[c]| then old(table)[c := old(table)[c][..number - 1]
                  + old(table)[c][number..]] else old(table)
    {
      if number <= |table[c]| {
        table := table[c := table[c][..number - 1] + table[c][number..]];
      }
    }

    /** iptables-restore --noflush: all of the script, or an error and nothing. */
    method RestoreAll(chains: seq<Chain>, cmds: seq<Cmd>) returns (ok: bool)
      modifies this`table
      ensures ok == Restore(old(table), sets.Keys, chains, cmds).Some?
      ensures table == if ok then Restore(old(table), sets.Keys, chains, cmds).value else old(table)
    {
      var r := Restore(table, sets.Keys, chains, cmds);
      ok := r.Some?;
      if ok {
        table := r.value;
      }
    }
  }
}
