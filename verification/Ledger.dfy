/** The source-symbol ledger (internal/spec/ledger.go) and minting (internal/spec/mint.go): a
    symbol is recorded once per namespace, may be retired, and is never handed out again. */
module Ledger {
  import opened Text
  import opened Names
  import opened Spec
  import opened Normalize

  type Namespace = string

  const RESOURCE_NAMESPACE: Namespace := "resource"

  function FieldNamespace(resource: ID): Namespace { "fields:" + resource }

  lemma NamespacesDiffer(a: ID, b: ID)
    ensures FieldNamespace(a) != RESOURCE_NAMESPACE
    ensures FieldNamespace(a) == FieldNamespace(b) ==> a == b
  {
    assert FieldNamespace(a)[0] == 'f' && RESOURCE_NAMESPACE[0] == 'r';
    assert FieldNamespace(a)[7..] == a && FieldNamespace(b)[7..] == b;
  }

  datatype Entry = Entry(live: bool, owner: ID)

  /** The map of maps, flattened: a symbol in a namespace. */
  type Table = map<(Namespace, string), Entry>

  predicate Free(t: Table, ns: Namespace, symbol: string) { (ns, symbol) !in t }

  predicate Live(t: Table, ns: Namespace, symbol: string) { (ns, symbol) in t && t[(ns, symbol)].live }

  predicate OwnsLive(t: Table, ns: Namespace, symbol: string, entity: ID) {
    Live(t, ns, symbol) && t[(ns, symbol)].owner == entity
  }

  function Recorded(t: Table, ns: Namespace, symbol: string, entity: ID): Table {
    if Free(t, ns, symbol) then t[(ns, symbol) := Entry(true, entity)] else t
  }

  function Retired(t: Table, ns: Namespace, symbol: string): Table {
    if Live(t, ns, symbol) then t[(ns, symbol) := Entry(false, t[(ns, symbol)].owner)] else t
  }

  function EntityRetired(t: Table, entity: ID): Table {
    map k | k in t :: if t[k].live && t[k].owner == entity then Entry(false, entity) else t[k]
  }

  /** What no operation may undo: a recorded symbol stays recorded, keeps its owner, and once
      retired never comes back to life. */
  ghost predicate Grows(before: Table, after: Table) {
    forall k :: k in before ==>
      k in after && after[k].owner == before[k].owner && (after[k].live ==> before[k].live)
  }

  // ----- Candidate symbols -----

  const MAX_MINT_ATTEMPTS: nat := 1000

  function Variant(base: string, n: nat): string {
    if n <= 1 then base else base + Itoa(n)
  }

  /** The first name is the base; the n-th is the base followed by n in decimal. */
  lemma VariantReads(base: string, n: nat)
    ensures n <= 1 ==> Variant(base, n) == base
    ensures n >= 2 ==>
      var v := Variant(base, n);
      && |v| > |base| && v[..|base|] == base && DigitsValue(v[|base|..]) == n
      && forall i :: |base| <= i < |v| ==> Digit(v[i])
  {
    if n >= 2 {
      ItoaDenotes(n);
      assert Variant(base, n)[|base|..] == Itoa(n);
      assert forall i :: |base| <= i < |Variant(base, n)| ==> Variant(base, n)[i] == Itoa(n)[i - |base|];
    }
  }

  predicate Available(t: Table, ns: Namespace, reserved: string -> bool, symbol: string) {
    Free(t, ns, symbol) && !reserved(symbol)
  }

  function KindFallback(entity: ID): string {
    var prefix := PrefixOf(entity);
    if prefix == "prj" then "Project"
    else if prefix == "res" then "Resource"
    else if prefix == "fld" then "Field"
    else if prefix == "rel" then "Relation"
    else if prefix == "pag" then "Page"
    else if prefix == "act" then "Action"
    else if prefix == "hok" then "Hook"
    else if prefix == "nav" then "Nav"
    else ""
  }

  function BaseSymbol(lib: Library, caption: string, entity: ID): string {
    match Normal(lib, caption)
    case Some(name) => name
    case None => KindFallback(entity)
  }

  predicate NothingReserved(symbol: string) { false }

  function Identity(s: string): string { s }

  // ----- The order of a report of retired symbols -----

  predicate PairLess(a: (Namespace, string), b: (Namespace, string)) {
    Less(a.0, b.0) || (a.0 == b.0 && Less(a.1, b.1))
  }

  ghost predicate PairsAscend(ps: seq<(Namespace, string)>) {
    forall i, j :: 0 <= i < j < |ps| ==> PairLess(ps[i], ps[j])
  }

  function InsertPair(p: (Namespace, string), ps: seq<(Namespace, string)>): (r: seq<(Namespace, string)>)
    ensures forall q :: q in r <==> q == p || q in ps
  {
    if ps == [] then [p]
    else if PairLess(ps[0], p) then [ps[0]] + InsertPair(p, ps[1..])
    else [p] + ps
  }

  lemma PairLessTransitive(a: (Namespace, string), b: (Namespace, string), c: (Namespace, string))
    requires PairLess(a, b) && PairLess(b, c)
    ensures PairLess(a, c)
  {
    if Less(a.0, b.0) && Less(b.0, c.0) { LessTransitive(a.0, b.0, c.0); }
    if Less(a.1, b.1) && Less(b.1, c.1) { LessTransitive(a.1, b.1, c.1); }
  }

  lemma PairLessTotal(a: (Namespace, string), b: (Namespace, string))
    ensures PairLess(a, b) || a == b || PairLess(b, a)
  {
    LessTotal(a.0, b.0);
    LessTotal(a.1, b.1);
  }

  lemma {:induction false} InsertPairAscends(p: (Namespace, string), ps: seq<(Namespace, string)>)
    requires PairsAscend(ps) && p !in ps
    ensures PairsAscend(InsertPair(p, ps))
  {
    hide PairLess;
    if ps != [] {
      PairLessTotal(p, ps[0]);
      if PairLess(ps[0], p) {
        InsertPairAscends(p, ps[1..]);
        var tail := InsertPair(p, ps[1..]);
        forall j | 0 <= j < |tail| ensures PairLess(ps[0], tail[j]) {
          assert tail[j] in tail;
        }
      } else {
        forall j | 0 <= j < |ps| ensures PairLess(p, ps[j]) {
          if j > 0 { PairLessTransitive(p, ps[0], ps[j]); }
        }
      }
    }
  }

  class Ledger {
    var entries: Table

    constructor ()
      ensures entries == map[]
    {
      entries := map[];
    }

    method Clone() returns (copy: Ledger)
      ensures fresh(copy) && copy.entries == entries
    {
      copy := new Ledger();
      copy.entries := entries;
    }

    method Record(ns: Namespace, symbol: string, entity: ID) returns (ok: bool)
      modifies this
      ensures ok == Free(old(entries), ns, symbol)
      ensures entries == Recorded(old(entries), ns, symbol, entity)
      ensures entries == if ok then old(entries)[(ns, symbol) := Entry(true, entity)] else old(entries)
      ensures Grows(old(entries), entries)
    {
      if (ns, symbol) in entries {
        return false;
      }
      entries := entries[(ns, symbol) := Entry(true, entity)];
      return true;
    }

    method Tombstone(ns: Namespace, symbol: string) returns (ok: bool)
      modifies this
      ensures ok == Live(old(entries), ns, symbol)
      ensures entries == Retired(old(entries), ns, symbol)
      ensures entries ==
        if ok then old(entries)[(ns, symbol) := Entry(false, old(entries)[(ns, symbol)].owner)] else old(entries)
      ensures Grows(old(entries), entries)
    {
      if (ns, symbol) !in entries || !entries[(ns, symbol)].live {
        return false;
      }
      Retire(ns, symbol);
      return true;
    }

    method Retire(ns: Namespace, symbol: string)
      requires Live(entries, ns, symbol)
      modifies this
      ensures entries == Retired(old(entries), ns, symbol)
    {
      entries := entries[(ns, symbol) := Entry(false, entries[(ns, symbol)].owner)];
    }

    /** Retires every live symbol of one entity, in whatever order the map is walked, and
        reports them sorted by namespace, then symbol. */
    method TombstoneEntity(entity: ID) returns (report: seq<(Namespace, string)>)
      modifies this
      ensures entries == EntityRetired(old(entries), entity)
      ensures entries.Keys == old(entries).Keys
      ensures forall k :: k in entries ==>
        entries[k] == if old(entries)[k].live && old(entries)[k].owner == entity then Entry(false, entity) else old(entries)[k]
      ensures forall k :: k in report <==> k in old(entries) && old(entries)[k].live && old(entries)[k].owner == entity
      ensures PairsAscend(report)
      ensures Grows(old(entries), entries)
    {
      ghost var retired: set<(Namespace, string)> := {};
      report := [];
      var pending := entries.Keys;
      while pending != {}
        invariant pending <= entries.Keys == old(entries).Keys
        invariant forall k :: k in pending ==> entries[k] == old(entries)[k]
        invariant forall k :: k in entries.Keys - pending ==>
          entries[k] == EntityRetired(old(entries), entity)[k]
        invariant retired == set k | k in old(entries).Keys - pending && old(entries)[k].live && old(entries)[k].owner == entity
        invariant PairsAscend(report) && forall k :: k in report <==> k in retired
        decreases pending
      {
        var k :| k in pending;
        if entries[k].owner == entity && entries[k].live {
          Retire(k.0, k.1);
          InsertPairAscends(k, report);
          retired, report := retired + {k}, InsertPair(k, report);
        }
        pending := pending - {k};
      }
    }

    /** The symbols of a namespace, sorted. */
    function Symbols(ns: Namespace): seq<string>
      reads this
    {
      SymbolsOf(entries, ns)
    }

    /** The least live symbol the entity owns in the namespace, if it owns one. */
    method OwnedSymbol(ns: Namespace, entity: ID) returns (symbol: Option<string>)
      ensures symbol.None? <==> forall s :: !OwnsLive(entries, ns, s, entity)
      ensures symbol.Some? ==>
        && OwnsLive(entries, ns, symbol.value, entity)
        && forall s :: OwnsLive(entries, ns, s, entity) ==> !Less(s, symbol.value)
    {
      var symbols := Symbols(ns);
      SymbolsOfMeaning(entries, ns);
      for i := 0 to |symbols|
        invariant forall k :: 0 <= k < i ==> !OwnsLive(entries, ns, symbols[k], entity)
      {
        if OwnsLive(entries, ns, symbols[i], entity) {
          forall s | OwnsLive(entries, ns, s, entity) ensures !Less(s, symbols[i]) {
            var k :| 0 <= k < |symbols| && symbols[k] == s;
            LessIrreflexive(s);
            if k > i { assert !Less(Identity(symbols[k]), Identity(symbols[i])); }
          }
          return Some(symbols[i]);
        }
      }
      assert forall s :: OwnsLive(entries, ns, s, entity) ==> s in symbols;
      return None;
    }

    /** Mint: an entity that owns a live symbol here keeps the least one; otherwise it gets the
        least-numbered available variant of its base, recorded live; minting fails only without
        a base or when all of the numbered variants are taken or reserved. */
    method Mint(lib: Library, ns: Namespace, caption: string, entity: ID, reserved: string -> bool)
      returns (symbol: Option<string>)
      modifies this
      ensures Grows(old(entries), entries)
      ensures (exists s :: OwnsLive(old(entries), ns, s, entity)) ==>
        && symbol.Some? && OwnsLive(old(entries), ns, symbol.value, entity)
        && (forall s :: OwnsLive(old(entries), ns, s, entity) ==> !Less(s, symbol.value))
        && entries == old(entries)
      ensures !(exists s :: OwnsLive(old(entries), ns, s, entity)) ==>
        Minted(old(entries), ns, BaseSymbol(lib, caption, entity), reserved, entity, symbol, entries)
    {
      hide Normal, KindFallback, Itoa;
      symbol := OwnedSymbol(ns, entity);
      if symbol.Some? {
        return;
      }
      var ident := NormalizeLabel(lib, caption);
      var base := if ident.Some? then ident.value else KindFallback(entity);
      NormalIsExported(lib, caption);
      if base == "" {
        return None;
      }
      for n := 1 to MAX_MINT_ATTEMPTS + 1
        invariant entries == old(entries)
        invariant forall m :: 1 <= m < n ==> !Available(entries, ns, reserved, Variant(base, m))
      {
        var candidate := Variant(base, n);
        if !Free(entries, ns, candidate) {
          continue;
        }
        if reserved(candidate) {
          continue;
        }
        var ok := Record(ns, candidate, entity);
        assert Available(old(entries), ns, reserved, candidate);
        return Some(candidate);
      }
      return None;
    }
  }

  ghost predicate Minted(t: Table, ns: Namespace, base: string, reserved: string -> bool, entity: ID,
                         symbol: Option<string>, t': Table)
  {
    match symbol
    case Some(s) =>
      && base != ""
      && Available(t, ns, reserved, s)
      && (exists n :: 1 <= n <= MAX_MINT_ATTEMPTS && s == Variant(base, n)
            && forall m :: 1 <= m < n ==> !Available(t, ns, reserved, Variant(base, m)))
      && t' == t[(ns, s) := Entry(true, entity)]
    case None =>
      && t' == t
      && (base == "" || forall n :: 1 <= n <= MAX_MINT_ATTEMPTS ==> !Available(t, ns, reserved, Variant(base, n)))
  }

  function SetToSeq(xs: set<string>): (r: seq<string>)
    ensures forall x :: x in r <==> x in xs
    ensures |r| == |xs|
  {
    if xs == {} then []
    else
      var least := LeastOf(xs);
      [least] + SetToSeq(xs - {least})
  }

  function LeastOf(xs: set<string>): (least: string)
    requires xs != {}
    ensures least in xs && forall x :: x in xs ==> !Less(x, least)
  {
    LeastExists(xs);
    LeastUnique(xs);
    var x :| x in xs && forall y :: y in xs ==> !Less(y, x);
    x
  }

  lemma {:induction false} LeastExists(xs: set<string>)
    requires xs != {}
    ensures exists x :: x in xs && forall y :: y in xs ==> !Less(y, x)
  {
    var x :| x in xs;
    var rest := xs - {x};
    LessIrreflexive(x);
    if rest == {} {
      assert xs == {x};
    } else {
      LeastExists(rest);
      var l :| l in rest && forall y :: y in rest ==> !Less(y, l);
      if Less(x, l) {
        forall y | y in xs ensures !Less(y, x) {
          if y != x && Less(y, x) { LessTransitive(y, x, l); }
        }
      } else {
        assert forall y :: y in xs ==> y == x || y in rest;
        assert l in xs;
      }
    }
  }

  lemma LeastUnique(xs: set<string>)
    ensures forall a, b ::
      a in xs && b in xs && (forall y :: y in xs ==> !Less(y, a)) && (forall y :: y in xs ==> !Less(y, b)) ==>
        a == b
  {
    forall a, b | a in xs && b in xs && (forall y :: y in xs ==> !Less(y, a)) && (forall y :: y in xs ==> !Less(y, b))
      ensures a == b
    {
      LessTotal(a, b);
    }
  }

  function SymbolsOf(t: Table, ns: Namespace): seq<string> {
    SetToSeq(set k | k in t && k.0 == ns :: k.1)
  }

  lemma SymbolsOfMeaning(t: Table, ns: Namespace)
    ensures forall s :: s in SymbolsOf(t, ns) <==> (ns, s) in t
    ensures SortedBy(Identity, SymbolsOf(t, ns))
  {
    var names := set k | k in t && k.0 == ns :: k.1;
    forall s ensures s in names <==> (ns, s) in t {
      if (ns, s) in t { assert (ns, s).0 == ns && (ns, s).1 == s; }
    }
    SetToSeqSorted(names);
  }

  lemma {:induction false} SetToSeqSorted(xs: set<string>)
    ensures SortedBy(Identity, SetToSeq(xs))
  {
    if xs != {} {
      var least := LeastOf(xs);
      SetToSeqSorted(xs - {least});
      var tail := SetToSeq(xs - {least});
      forall j | 0 <= j < |tail| ensures !Less(tail[j], least) {
        assert tail[j] in tail;
      }
    }
  }
}
