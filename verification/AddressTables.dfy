/** The two mapping tables: an IPv4 list ordered by prefix length, searched for
    its first match, and an IPv6 list whose entries never overlap.

    A mapping value stands for the C object that embeds the `map4` and `map6`
    list nodes; inside one list no two entries share an IPv4 prefix, so equality
    of values is equality of pointers. */
module AddressTables {
  import opened Bits
  import opened Wrappers

  type Ip4 = x: nat | x < 0x1_0000_0000
  type Ip6 = x: nat | x < 0x1_0000_0000_0000_0000_0000_0000_0000_0000

  type Len4 = x: nat | x <= 32
  type Len6 = x: nat | x <= 128

  datatype Origin = Self | ConfFile | MapFile

  datatype Mapping =
    | Static(a4: Ip4, l4: Len4, a6: Ip6, l6: Len6, origin: Origin)
    | Rfc6052(prefix: Ip6, prefixLen: Len6)
    | Pool(base: Ip4, poolLen: Len4)
    | Host(h4: Ip4, h6: Ip6)
  {
    function Addr4(): Ip4 {
      match this
      case Static(a, _, _, _, _) => a
      case Rfc6052(_, _) => 0
      case Pool(a, _) => a
      case Host(a, _) => a
    }

    function Length4(): Len4 {
      match this
      case Static(_, l, _, _, _) => l
      case Rfc6052(_, _) => 0
      case Pool(_, l) => l
      case Host(_, _) => 32
    }

    function Addr6(): Ip6
      requires !Pool?
    {
      match this
      case Static(_, _, b, _, _) => b
      case Rfc6052(b, _) => b
      case Host(_, b) => b
    }

    function Length6(): Len6
      requires !Pool?
    {
      match this
      case Static(_, _, _, l, _) => l
      case Rfc6052(_, l) => l
      case Host(_, _) => 128
    }

    /** No host bits are set, as `calc_ip4_mask` and `calc_ip6_mask` insist. */
    predicate Canonical() {
      && Aligned(Addr4(), 32 - Length4())
      && (!Pool? ==> Aligned(Addr6(), 128 - Length6()))
    }

    /** `m->addr == (m->mask & a)` */
    predicate Covers4(a: Ip4) {
      ClearLow(a, 32 - Length4()) == Addr4()
    }

    /** `IN6_IS_IN_NET(b, m->addr, m->mask)` */
    predicate Covers6(b: Ip6)
      requires !Pool?
    {
      ClearLow(b, 128 - Length6()) == Addr6()
    }

    predicate SameKey4(n: Mapping) {
      Addr4() == n.Addr4() && Length4() == n.Length4()
    }

    /** The conflict test of `insert_map6`, `this` being in the list already. */
    predicate Conflicts6(m: Mapping)
      requires !Pool? && !m.Pool?
    {
      if Length6() < m.Length6() then Covers6(m.Addr6()) else m.Covers6(Addr6())
    }
  }

  ghost predicate AllCanonical(s: seq<Mapping>) {
    forall m :: m in s ==> m.Canonical()
  }

  lemma Covers4Range(m: Mapping, a: Ip4)
    requires m.Canonical()
    ensures m.Covers4(a) <==> m.Addr4() <= a < m.Addr4() + Pow2(32 - m.Length4())
  {
    ClearLowIsBlock(a, 32 - m.Length4(), m.Addr4());
  }

  lemma Covers6Range(m: Mapping, b: Ip6)
    requires !m.Pool? && m.Canonical()
    ensures m.Covers6(b) <==> m.Addr6() <= b < m.Addr6() + Pow2(128 - m.Length6())
  {
    ClearLowIsBlock(b, 128 - m.Length6(), m.Addr6());
  }

  // ---------------------------------------------------------------- IPv4 list

  /** Longer prefixes first, and no prefix twice. */
  ghost predicate Ordered4(s: seq<Mapping>) {
    && (forall i, j :: 0 <= i < j < |s| ==> s[i].Length4() >= s[j].Length4())
    && (forall i, j :: 0 <= i < j < |s| ==> !s[i].SameKey4(s[j]))
  }

  /** `find_map4`: the first entry that covers a. */
  function FindMap4(s: seq<Mapping>, a: Ip4): (r: Option<Mapping>)
  {
    if s == [] then None
    else if s[0].Covers4(a) then Some(s[0])
    else FindMap4(s[1..], a)
  }

  /** m covers a, and every other entry that covers a is strictly shorter. */
  ghost predicate LongestMatch(s: seq<Mapping>, a: Ip4, m: Mapping) {
    m in s && m.Covers4(a) &&
    forall n :: n in s && n.Covers4(a) && n != m ==> n.Length4() < m.Length4()
  }

  /** In an ordered list the first match is the longest prefix match. */
  lemma {:induction false} FirstIsLongest(s: seq<Mapping>, a: Ip4, m: Mapping)
    requires Ordered4(s)
    ensures FindMap4(s, a) == Some(m) <==> LongestMatch(s, a, m)
  {
    if s == [] {
    } else if s[0].Covers4(a) {
      forall n | n in s && n.Covers4(a) && n != s[0]
        ensures n.Length4() < s[0].Length4()
      {
        var j :| 0 <= j < |s| && s[j] == n;
        assert !s[0].SameKey4(s[j]);
      }
    } else {
      FirstIsLongest(s[1..], a, m);
      assert forall n :: n in s <==> n == s[0] || n in s[1..];
    }
  }

  lemma {:induction false} FindNone(s: seq<Mapping>, a: Ip4)
    ensures FindMap4(s, a) == None <==> forall n :: n in s ==> !n.Covers4(a)
  {
    if s == [] {
    } else {
      FindNone(s[1..], a);
      assert forall n :: n in s <==> n == s[0] || n in s[1..];
    }
  }

  lemma FindIsMember(s: seq<Mapping>, a: Ip4)
    ensures FindMap4(s, a).Some? ==> FindMap4(s, a).value in s && FindMap4(s, a).value.Covers4(a)
  {
    if s != [] {
      FindIsMember(s[1..], a);
    }
  }

  /** Where `insert_map4` puts an entry of this length: before the first shorter one. */
  function InsertPos4(s: seq<Mapping>, len: Len4): (p: nat)
    ensures p <= |s|
    ensures forall i :: 0 <= i < p ==> s[i].Length4() >= len
    ensures p < |s| ==> s[p].Length4() < len
  {
    if s == [] || s[0].Length4() < len then 0 else 1 + InsertPos4(s[1..], len)
  }

  function Inserted(s: seq<Mapping>, p: nat, m: Mapping): (r: seq<Mapping>)
    requires p <= |s|
    ensures forall n :: n in r <==> n == m || n in s
  {
    assert s == s[..p] + s[p..];
    s[..p] + [m] + s[p..]
  }

  lemma InsertedAt(s: seq<Mapping>, p: nat, m: Mapping, i: nat)
    requires p <= |s| && i <= |s|
    ensures |Inserted(s, p, m)| == |s| + 1
    ensures Inserted(s, p, m)[i] == if i < p then s[i] else if i == p then m else s[i - 1]
  {
  }

  lemma InsertKeepsOrder4(s: seq<Mapping>, m: Mapping)
    requires Ordered4(s) && forall n :: n in s ==> !n.SameKey4(m)
    ensures Ordered4(Inserted(s, InsertPos4(s, m.Length4()), m))
  {
    hide Inserted, InsertPos4;
    var p := InsertPos4(s, m.Length4());
    var r := Inserted(s, p, m);
    InsertedAt(s, p, m, 0);
    forall i, j | 0 <= i < j < |r|
      ensures r[i].Length4() >= r[j].Length4() && !r[i].SameKey4(r[j])
    {
      InsertedAt(s, p, m, i);
      InsertedAt(s, p, m, j);
    }
  }

  /** `insert_map4`: refuses a prefix that is present, else inserts in order. */
  method InsertMap4(s: seq<Mapping>, m: Mapping) returns (r: seq<Mapping>, conflict: Option<Mapping>)
    requires Ordered4(s)
    ensures conflict == None <==> forall n :: n in s ==> !n.SameKey4(m)
    ensures conflict.Some? ==> r == s && conflict.value in s && conflict.value.SameKey4(m)
    ensures conflict == None ==> r == Inserted(s, InsertPos4(s, m.Length4()), m)
    ensures Ordered4(r)
  {
    var insertPos: Option<nat> := None;
    for i := 0 to |s|
      invariant forall k :: 0 <= k < i ==> !s[k].SameKey4(m)
      invariant insertPos == None ==> forall k :: 0 <= k < i ==> s[k].Length4() >= m.Length4()
      invariant insertPos.Some? ==> insertPos.value < i && s[insertPos.value].Length4() < m.Length4()
      invariant insertPos.Some? ==> forall k :: 0 <= k < insertPos.value ==> s[k].Length4() >= m.Length4()
    {
      if s[i].SameKey4(m) {
        return s, Some(s[i]);
      }
      if s[i].Length4() < m.Length4() && insertPos == None {
        insertPos := Some(i);
      }
    }
    var p := insertPos.GetOr(|s|);
    assert p == InsertPos4(s, m.Length4());
    InsertKeepsOrder4(s, m);
    r, conflict := s[..p] + [m] + s[p..], None;
  }

  // ---------------------------------------------------------------- IPv6 list

  /** No pool entry, and no address is covered twice. */
  ghost predicate Disjoint6(s: seq<Mapping>) {
    && (forall i :: 0 <= i < |s| ==> !s[i].Pool?)
    && (forall i, j :: 0 <= i < j < |s| ==> s[i].Length6() >= s[j].Length6())
    && (forall i, j :: 0 <= i < j < |s| ==> !s[i].Conflicts6(s[j]))
  }

  ghost predicate Overlap6(m: Mapping, n: Mapping)
    requires !m.Pool? && !n.Pool?
  {
    exists b: Ip6 :: m.Covers6(b) && n.Covers6(b)
  }

  /** The one-sided containment tests of `insert_map6` detect exactly the overlaps. */
  lemma ConflictIsOverlap(s: Mapping, m: Mapping)
    requires !s.Pool? && !m.Pool? && s.Canonical() && m.Canonical()
    ensures s.Conflicts6(m) <==> Overlap6(s, m)
  {
    Covers6Range(s, s.Addr6());
    Covers6Range(m, m.Addr6());
    Covers6Range(s, m.Addr6());
    Covers6Range(m, s.Addr6());
    if s.Length6() < m.Length6() {
      BlocksNestOrDisjoint(m.Addr6(), 128 - m.Length6(), s.Addr6(), 128 - s.Length6());
    } else {
      BlocksNestOrDisjoint(s.Addr6(), 128 - s.Length6(), m.Addr6(), 128 - m.Length6());
    }
    if Overlap6(s, m) {
      var b: Ip6 :| s.Covers6(b) && m.Covers6(b);
      Covers6Range(s, b);
      Covers6Range(m, b);
    }
  }

  /** `find_map6` */
  function FindMap6(s: seq<Mapping>, b: Ip6): (r: Option<Mapping>)
    requires forall m :: m in s ==> !m.Pool?
    ensures r.Some? ==> r.value in s && r.value.Covers6(b)
    ensures r == None <==> forall m :: m in s ==> !m.Covers6(b)
  {
    if s == [] then None
    else if s[0].Covers6(b) then Some(s[0])
    else FindMap6(s[1..], b)
  }

  /** At most one IPv6 entry matches, wherever it stands in the list. */
  lemma MatchIsUnique6(s: seq<Mapping>, b: Ip6, m: Mapping)
    requires Disjoint6(s) && AllCanonical(s)
    ensures FindMap6(s, b) == Some(m) <==> m in s && m.Covers6(b)
  {
    hide FindMap6, ClearLow, Aligned, Pow2;
    if m in s && m.Covers6(b) {
      var n := FindMap6(s, b).value;
      var i :| 0 <= i < |s| && s[i] == m;
      var j :| 0 <= j < |s| && s[j] == n;
      if i < j {
        ConflictIsOverlap(m, n);
      } else if j < i {
        ConflictIsOverlap(n, m);
      }
    }
  }

  function InsertPos6(s: seq<Mapping>, len: Len6): (p: nat)
    requires forall m :: m in s ==> !m.Pool?
    ensures p <= |s|
    ensures forall i :: 0 <= i < p ==> s[i].Length6() >= len
    ensures p < |s| ==> s[p].Length6() < len
  {
    if s == [] || s[0].Length6() < len then 0 else 1 + InsertPos6(s[1..], len)
  }

  lemma ConflictFlips(s: Mapping, m: Mapping)
    requires !s.Pool? && !m.Pool? && s.Canonical() && m.Canonical()
    ensures s.Conflicts6(m) <==> m.Conflicts6(s)
  {
    ConflictIsOverlap(s, m);
    ConflictIsOverlap(m, s);
    if Overlap6(s, m) {
      var b: Ip6 :| s.Covers6(b) && m.Covers6(b);
      assert m.Covers6(b) && s.Covers6(b);
    }
    if Overlap6(m, s) {
      var b: Ip6 :| m.Covers6(b) && s.Covers6(b);
      assert s.Covers6(b) && m.Covers6(b);
    }
  }

  lemma InsertKeepsDisjoint6(s: seq<Mapping>, m: Mapping)
    requires Disjoint6(s) && AllCanonical(s) && !m.Pool? && m.Canonical()
    requires forall n :: n in s ==> !n.Conflicts6(m)
    ensures Disjoint6(Inserted(s, InsertPos6(s, m.Length6()), m))
  {
    hide Inserted, InsertPos6, ClearLow, Aligned;
    var p := InsertPos6(s, m.Length6());
    var r := Inserted(s, p, m);
    InsertedAt(s, p, m, 0);
    forall i, j | 0 <= i < j < |r|
      ensures r[i].Length6() >= r[j].Length6() && !r[i].Conflicts6(r[j])
    {
      InsertedAt(s, p, m, i);
      InsertedAt(s, p, m, j);
      if i == p {
        ConflictFlips(s[j - 1], m);
      }
    }
  }

  /** `insert_map6`: refuses exactly the prefixes that overlap one in the table. */
  method InsertMap6(s: seq<Mapping>, m: Mapping) returns (r: seq<Mapping>, conflict: Option<Mapping>)
    requires Disjoint6(s) && AllCanonical(s) && !m.Pool? && m.Canonical()
    ensures conflict == None <==> forall n :: n in s ==> !Overlap6(n, m)
    ensures conflict.Some? ==> r == s && conflict.value in s && Overlap6(conflict.value, m)
    ensures conflict == None ==> r == Inserted(s, InsertPos6(s, m.Length6()), m)
    ensures Disjoint6(r)
  {
    var insertPos: Option<nat> := None;
    for i := 0 to |s|
      invariant forall k :: 0 <= k < i ==> !s[k].Conflicts6(m)
      invariant insertPos == None ==> forall k :: 0 <= k < i ==> s[k].Length6() >= m.Length6()
      invariant insertPos.Some? ==> insertPos.value < i && s[insertPos.value].Length6() < m.Length6()
      invariant insertPos.Some? ==> forall k :: 0 <= k < insertPos.value ==> s[k].Length6() >= m.Length6()
    {
      ConflictIsOverlap(s[i], m);
      if s[i].Length6() < m.Length6() {
        if s[i].Covers6(m.Addr6()) {
          return s, Some(s[i]);
        }
        if insertPos == None {
          insertPos := Some(i);
        }
      } else if m.Covers6(s[i].Addr6()) {
        return s, Some(s[i]);
      }
    }
    var p := insertPos.GetOr(|s|);
    assert p == InsertPos6(s, m.Length6());
    forall n | n in s ensures !Overlap6(n, m) {
      ConflictIsOverlap(n, m);
    }
    InsertKeepsDisjoint6(s, m);
    r, conflict := s[..p] + [m] + s[p..], None;
  }

  // ---------------------------------------------------------------- removal

  /** The list after `list_del` of the entries that `keep` rejects. */
  function Filter(s: seq<Mapping>, keep: Mapping -> bool): (r: seq<Mapping>)
    ensures forall n :: n in r <==> n in s && keep(n)
  {
    if s == [] then []
    else (if keep(s[0]) then [s[0]] else []) + Filter(s[1..], keep)
  }

  ghost predicate Leads4(m: Mapping, s: seq<Mapping>) {
    forall n :: n in s ==> m.Length4() >= n.Length4() && !m.SameKey4(n)
  }

  lemma OrderedTail4(s: seq<Mapping>)
    requires s != []
    ensures Ordered4(s) <==> Leads4(s[0], s[1..]) && Ordered4(s[1..])
  {
    var t := s[1..];
    if Ordered4(s) {
      forall n | n in t ensures s[0].Length4() >= n.Length4() && !s[0].SameKey4(n) {
        var j :| 0 <= j < |t| && t[j] == n;
        assert s[j + 1] == n;
      }
    }
    if Leads4(s[0], t) && Ordered4(t) {
      forall i, j | 0 <= i < j < |s| ensures s[i].Length4() >= s[j].Length4() && !s[i].SameKey4(s[j]) {
        assert s[j] == t[j - 1] && s[j] in t;
        if i > 0 {
          assert s[i] == t[i - 1];
        }
      }
    }
  }

  lemma FilterStep(s: seq<Mapping>, keep: Mapping -> bool)
    requires s != []
    ensures keep(s[0]) ==> Filter(s, keep) != [] && Filter(s, keep)[0] == s[0] && Filter(s, keep)[1..] == Filter(s[1..], keep)
    ensures !keep(s[0]) ==> Filter(s, keep) == Filter(s[1..], keep)
  {
  }

  lemma LeadsFiltered4(m: Mapping, s: seq<Mapping>, keep: Mapping -> bool)
    requires Leads4(m, s)
    ensures Leads4(m, Filter(s, keep))
  {
    hide Filter;
  }

  lemma {:induction false} FilterKeepsOrder4(s: seq<Mapping>, keep: Mapping -> bool)
    requires Ordered4(s)
    ensures Ordered4(Filter(s, keep))
  {
    if s == [] {
    } else {
      hide Filter, Ordered4, Leads4;
      OrderedTail4(s);
      FilterKeepsOrder4(s[1..], keep);
      FilterStep(s, keep);
      LeadsFiltered4(s[0], s[1..], keep);
      if keep(s[0]) {
        OrderedTail4(Filter(s, keep));
      }
    }
  }

  ghost predicate Leads6(m: Mapping, s: seq<Mapping>)
    requires !m.Pool?
  {
    forall n :: n in s ==> !n.Pool? && m.Length6() >= n.Length6() && !m.Conflicts6(n)
  }

  lemma DisjointTail6(s: seq<Mapping>)
    requires s != []
    ensures Disjoint6(s) <==> !s[0].Pool? && Leads6(s[0], s[1..]) && Disjoint6(s[1..])
  {
    var t := s[1..];
    if Disjoint6(s) {
      forall n | n in t ensures !n.Pool? && s[0].Length6() >= n.Length6() && !s[0].Conflicts6(n) {
        var j :| 0 <= j < |t| && t[j] == n;
        assert s[j + 1] == n;
      }
    }
    if !s[0].Pool? && Leads6(s[0], t) && Disjoint6(t) {
      forall i | 0 <= i < |s| ensures !s[i].Pool? {
        assert i > 0 ==> s[i] == t[i - 1];
      }
      forall i, j | 0 <= i < j < |s| ensures s[i].Length6() >= s[j].Length6() && !s[i].Conflicts6(s[j]) {
        assert s[j] == t[j - 1] && s[j] in t;
        if i > 0 {
          assert s[i] == t[i - 1];
        }
      }
    }
  }

  lemma LeadsFiltered6(m: Mapping, s: seq<Mapping>, keep: Mapping -> bool)
    requires !m.Pool? && Leads6(m, s)
    ensures Leads6(m, Filter(s, keep))
  {
    hide Filter;
  }

  lemma {:induction false} FilterKeepsDisjoint6(s: seq<Mapping>, keep: Mapping -> bool)
    requires Disjoint6(s)
    ensures Disjoint6(Filter(s, keep))
  {
    if s == [] {
    } else {
      hide Filter, Disjoint6, Leads6;
      DisjointTail6(s);
      FilterKeepsDisjoint6(s[1..], keep);
      FilterStep(s, keep);
      LeadsFiltered6(s[0], s[1..], keep);
      if keep(s[0]) {
        DisjointTail6(Filter(s, keep));
      }
    }
  }
}
