/** What adding and removing the table entries of one lease does to both lookups. */
module HostEntries {
  import opened Bits
  import opened Wrappers
  import opened AddressTables
  import opened Rfc6052
  import opened Translate
  import opened Coherence

  function Add4(map4: seq<Mapping>, m: Mapping): (r: seq<Mapping>) {
    Inserted(map4, InsertPos4(map4, m.Length4()), m)
  }

  function Add6(map6: seq<Mapping>, m: Mapping): (r: seq<Mapping>)
    requires !m.Pool? && forall n :: n in map6 ==> !n.Pool?
  {
    Inserted(map6, InsertPos6(map6, m.Length6()), m)
  }

  function Drop4(map4: seq<Mapping>, m: Mapping): (r: seq<Mapping>)
    ensures forall n :: n in r <==> n in map4 && n != m
  {
    Filter(map4, n => n != m)
  }

  lemma HostCovers(h: Mapping, a: Ip4, b: Ip6)
    requires h.Host?
    ensures h.Covers4(a) <==> a == h.h4
    ensures h.Covers6(b) <==> b == h.h6
    ensures Admitted(h)
  {
    Whole(a);
    Whole(b);
  }

  /** A host entry conflicts with an IPv6 entry exactly when that entry covers its address. */
  lemma HostConflict(h: Mapping, n: Mapping)
    requires h.Host? && !n.Pool?
    ensures n.Conflicts6(h) <==> n.Covers6(h.h6)
  {
    if n.Length6() == 128 {
      Whole(h.h6);
      Whole(n.Addr6());
    }
  }

  /** `insert_map4` does not refuse h. */
  predicate Fits4(map4: seq<Mapping>, h: Mapping) {
    forall n :: n in map4 ==> !n.SameKey4(h)
  }

  /** `insert_map6` does not refuse h. */
  predicate Fits6(map6: seq<Mapping>, h: Mapping)
    requires h.Host?
  {
    forall n :: n in map6 ==> !n.Pool? && !n.Covers6(h.h6)
  }

  predicate CanAddHost(map4: seq<Mapping>, map6: seq<Mapping>, h: Mapping) {
    h.Host? && Fits4(map4, h) && Fits6(map6, h)
  }

  lemma AddHostKeepsTables(cfg: Config, map4: seq<Mapping>, map6: seq<Mapping>, h: Mapping)
    requires TablesOk(cfg, map4, map6) && CanAddHost(map4, map6, h)
    ensures TablesOk(cfg, Add4(map4, h), Add6(map6, h))
  {
    hide Append, ClearLow, Aligned, Pow2, Valid6, InsertPos4, InsertPos6;
    InsertKeepsOrder4(map4, h);
    forall n | n in map6 ensures !n.Conflicts6(h) {
      HostConflict(h, n);
    }
    HostCovers(h, 0, 0);
    InsertKeepsDisjoint6(map6, h);
  }

  /** The new entry answers for its two addresses and for no other. */
  lemma AddHostFinds(cfg: Config, map4: seq<Mapping>, map6: seq<Mapping>, h: Mapping, a: Ip4, b: Ip6)
    requires TablesOk(cfg, map4, map6) && CanAddHost(map4, map6, h)
    ensures TablesOk(cfg, Add4(map4, h), Add6(map6, h))
    ensures FindMap4(Add4(map4, h), a) == if a == h.h4 then Some(h) else FindMap4(map4, a)
    ensures FindMap6(Add6(map6, h), b) == if b == h.h6 then Some(h) else FindMap6(map6, b)
  {
    hide Append, ClearLow, Aligned, Pow2, Valid6, InsertPos4, InsertPos6, Ordered4, Disjoint6, FindMap4, FindMap6;
    AddHostKeepsTables(cfg, map4, map6, h);
    HostCovers(h, a, b);
    var s4, s6 := Add4(map4, h), Add6(map6, h);
    if a == h.h4 {
      HostMatchesItself(s4, h);
    } else {
      SameMatch4(map4, s4, a, h);
    }
    if b == h.h6 {
      MatchIsUnique6(s6, b, h);
    } else {
      SameMatch6(map6, s6, b, h);
    }
  }

  /** Lists that differ only in an entry that does not cover a have the same match for a. */
  lemma SameMatch4(s: seq<Mapping>, t: seq<Mapping>, a: Ip4, h: Mapping)
    requires Ordered4(s) && Ordered4(t) && !h.Covers4(a)
    requires forall n :: n != h ==> (n in s <==> n in t)
    ensures FindMap4(s, a) == FindMap4(t, a)
  {
    hide FindMap4, Ordered4, ClearLow;
    if FindMap4(s, a) == None {
      FindNone(s, a);
      FindNone(t, a);
    } else {
      var m := FindMap4(s, a).value;
      FirstIsLongest(s, a, m);
      FirstIsLongest(t, a, m);
    }
  }

  lemma SameMatch6(s: seq<Mapping>, t: seq<Mapping>, b: Ip6, h: Mapping)
    requires Disjoint6(s) && Disjoint6(t) && AllCanonical(s) && AllCanonical(t)
    requires !h.Pool? && !h.Covers6(b)
    requires forall n :: n != h ==> (n in s <==> n in t)
    ensures FindMap6(s, b) == FindMap6(t, b)
  {
    hide ClearLow, Aligned;
    if FindMap6(s, b) != None {
      MatchIsUnique6(t, b, FindMap6(s, b).value);
    }
  }

  lemma DropHostKeepsTables(cfg: Config, map4: seq<Mapping>, map6: seq<Mapping>, h: Mapping)
    requires TablesOk(cfg, map4, map6) && h.Host?
    ensures TablesOk(cfg, Drop4(map4, h), Drop4(map6, h))
  {
    hide Append, ClearLow, Aligned, Pow2, Valid6, Ordered4, Disjoint6, Filter;
    FilterKeepsOrder4(map4, n => n != h);
    FilterKeepsDisjoint6(map6, n => n != h);
    assert SelfMap(cfg) in map4 && SelfMap(cfg) != h;
    if SelfMap(cfg) !in map6 {
      var m :| m in map6 && m.Rfc6052? && cfg.local6 == Append(m, cfg.local4);
      assert m in Drop4(map6, h);
    }
  }

  lemma DropHostFinds(cfg: Config, map4: seq<Mapping>, map6: seq<Mapping>, h: Mapping, a: Ip4, b: Ip6)
    requires TablesOk(cfg, map4, map6) && h.Host?
    ensures TablesOk(cfg, Drop4(map4, h), Drop4(map6, h))
    ensures a != h.h4 ==> FindMap4(Drop4(map4, h), a) == FindMap4(map4, a)
    ensures b != h.h6 ==> FindMap6(Drop4(map6, h), b) == FindMap6(map6, b)
  {
    hide Append, ClearLow, Aligned, Pow2, Valid6, Ordered4, Disjoint6, FindMap4, FindMap6, Filter;
    DropHostKeepsTables(cfg, map4, map6, h);
    HostCovers(h, a, b);
    if a != h.h4 {
      SameMatch4(map4, Drop4(map4, h), a, h);
    }
    if b != h.h6 {
      SameMatch6(map6, Drop4(map6, h), b, h);
    }
  }

  /** A lookup depends on the tables only through its two matches. */
  lemma Lookup4Local(cfg: Config, s4: seq<Mapping>, s6: seq<Mapping>, t4: seq<Mapping>, t6: seq<Mapping>, a: Ip4, b: Ip6)
    requires EntriesAdmitted(s4, s6) && EntriesAdmitted(t4, t6)
    requires Lookup4(cfg, s4, s6, a) == Found(b, true)
    requires FindMap4(s4, a) == FindMap4(t4, a) && FindMap6(s6, b) == FindMap6(t6, b)
    ensures Lookup4(cfg, t4, t6, a) == Found(b, true)
  {
    hide FindMap4, FindMap6, Embed, Append, Valid6, Validate4, Private4, StrictWellKnown, Admitted;
    FindIsMember(s4, a);
    FindIsMember(t4, a);
  }
}
