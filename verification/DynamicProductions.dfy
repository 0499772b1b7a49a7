/** The lifecycle of productions that are added while a grammar is in use: hosted by the caller, grown during a
    parse, committed or rolled back after it, and synchronised with a context before the next one. */
module DynamicProductions {
  import opened Options

  type Value = seq<int>
  type Pair = (int, int)
  type Context = map<nat, set<Value>>

  datatype State = Host | Committed | Pending | Retired

  /** `grownBy` and `confirmed` mean something only while the entry is pending. */
  datatype Entry = Entry(st: State, l: nat, value: Value, grownBy: set<Pair>, confirmed: bool)

  /** The fixed part: the heads of the source productions and the guards on them. */
  datatype Source = Source(heads: seq<nat>, guards: map<nat, string>)

  /** A snapshot of the tables: the dynamic productions in the order they were appended, their entries by production
      index, the index of each value, the pending list, and the two lookup tables from nonterminal to productions. */
  datatype Tables = Tables(
    extra: seq<(nat, Value)>, dynamic: map<nat, Entry>, idx: map<(nat, Value), nat>, pending: seq<nat>,
    ntsm: map<nat, set<nat>>, byNt: seq<set<nat>>)

  function Get<K, A>(m: map<K, set<A>>, k: K): set<A> {
    if k in m then m[k] else {}
  }

  function Row<A>(rows: seq<set<A>>, k: nat): set<A> {
    if k < |rows| then rows[k] else {}
  }

  predicate Enabled(s: Source, on: set<string>, p: nat) {
    p in s.guards ==> s.guards[p] in on
  }

  /** The productions a nonterminal has: its enabled source productions and its live dynamic ones. */
  function LinkedTo(s: Source, on: set<string>, dynamic: map<nat, Entry>, n: nat): set<nat> {
    (set p | 0 <= p < |s.heads| && s.heads[p] == n && Enabled(s, on, p))
    + (set i | i in dynamic && dynamic[i].l == n && !dynamic[i].st.Retired?)
  }

  /** An index belongs to one value for good, and every value has one index. */
  ghost predicate IndexOK(s: Source, k: Tables) {
    && (forall i :: i in k.dynamic <==> |s.heads| <= i < |s.heads| + |k.extra|)
    && (forall i :: i in k.dynamic ==> k.extra[i - |s.heads|] == (k.dynamic[i].l, k.dynamic[i].value))
    && (forall i :: i in k.dynamic ==> k.dynamic[i].value != [] && (k.dynamic[i].l, k.dynamic[i].value) in k.idx
                                       && k.idx[(k.dynamic[i].l, k.dynamic[i].value)] == i)
    && (forall x :: x in k.idx ==> k.idx[x] in k.dynamic && (k.dynamic[k.idx[x]].l, k.dynamic[k.idx[x]].value) == x)
  }

  /** The pending list holds each pending index once, and only pending entries carry the marks of a parse. */
  ghost predicate PendingOK(k: Tables) {
    && Distinct(k.pending)
    && (forall i :: i in k.pending <==> i in k.dynamic && k.dynamic[i].st.Pending?)
    && (forall i :: i in k.dynamic && !k.dynamic[i].st.Pending? ==>
        k.dynamic[i].grownBy == {} && !k.dynamic[i].confirmed)
  }

  /** Both lookup tables hold exactly what is linked. */
  ghost predicate LinksOK(s: Source, on: set<string>, k: Tables) {
    forall n: nat :: Get(k.ntsm, n) == LinkedTo(s, on, k.dynamic, n) && Row(k.byNt, n) == LinkedTo(s, on, k.dynamic, n)
  }

  ghost predicate OK(s: Source, on: set<string>, k: Tables) {
    IndexOK(s, k) && PendingOK(k) && LinksOK(s, on, k)
  }

  // ---- single steps on the tables

  ghost predicate Linked(a: Tables, b: Tables, l: nat, i: nat) {
    forall n: nat :: Get(b.ntsm, n) == Get(a.ntsm, n) + (if n == l then {i} else {})
                     && Row(b.byNt, n) == Row(a.byNt, n) + (if n == l then {i} else {})
  }

  ghost predicate Unlinked(a: Tables, b: Tables, l: nat, i: nat) {
    forall n: nat :: Get(b.ntsm, n) == Get(a.ntsm, n) - (if n == l then {i} else {})
                     && Row(b.byNt, n) == Row(a.byNt, n) - (if n == l then {i} else {})
  }

  ghost predicate SameName(e: Entry, d: Entry) {
    e.l == d.l && e.value == d.value
  }

  lemma LinkedChanges(s: Source, on: set<string>, dynamic: map<nat, Entry>, i: nat, e: Entry, n: nat)
    requires i >= |s.heads| && (i in dynamic ==> dynamic[i].l == e.l)
    ensures LinkedTo(s, on, dynamic[i := e], n)
         == (LinkedTo(s, on, dynamic, n) - (if n == e.l then {i} else {}))
             + (if n == e.l && !e.st.Retired? then {i} else {})
  {
  }

  lemma IndexChanges(s: Source, a: Tables, b: Tables, i: nat, e: Entry)
    requires IndexOK(s, a) && i in a.dynamic && SameName(e, a.dynamic[i])
    requires b.dynamic == a.dynamic[i := e] && b.extra == a.extra && b.idx == a.idx
    ensures IndexOK(s, b) && i >= |s.heads|
  {
  }

  lemma IndexAppears(s: Source, a: Tables, b: Tables, e: Entry)
    requires IndexOK(s, a) && e.value != [] && (e.l, e.value) !in a.idx
    requires b.extra == a.extra + [(e.l, e.value)]
    requires var i := |s.heads| + |a.extra|; b.dynamic == a.dynamic[i := e] && b.idx == a.idx[(e.l, e.value) := i]
    ensures |s.heads| + |a.extra| !in a.dynamic
    ensures IndexOK(s, b)
  {
  }

  /** Changing one entry and linking or unlinking it to match keeps the tables in step. */
  lemma EntryChanges(s: Source, on: set<string>, a: Tables, b: Tables, i: nat, e: Entry)
    requires IndexOK(s, a) && LinksOK(s, on, a) && i in a.dynamic && SameName(e, a.dynamic[i])
    requires b.dynamic == a.dynamic[i := e] && b.extra == a.extra && b.idx == a.idx
    requires || (e.st.Retired? && Unlinked(a, b, e.l, i))
             || (!e.st.Retired? && Linked(a, b, e.l, i))
             || (e.st.Retired? == a.dynamic[i].st.Retired? && a.ntsm == b.ntsm && a.byNt == b.byNt)
    ensures IndexOK(s, b) && LinksOK(s, on, b)
  {
    hide IndexOK, LinkedTo, Get, Row;
    IndexChanges(s, a, b, i, e);
    forall n: nat
      ensures Get(b.ntsm, n) == LinkedTo(s, on, b.dynamic, n) && Row(b.byNt, n) == LinkedTo(s, on, b.dynamic, n)
    {
      LinkedChanges(s, on, a.dynamic, i, e, n);
      LinkedAt(s, on, a.dynamic, i, n);
      assert Get(a.ntsm, n) == LinkedTo(s, on, a.dynamic, n) == Row(a.byNt, n);
    }
  }

  lemma LinkedAt(s: Source, on: set<string>, dynamic: map<nat, Entry>, i: nat, n: nat)
    requires i >= |s.heads| && i in dynamic
    ensures i in LinkedTo(s, on, dynamic, n) <==> dynamic[i].l == n && !dynamic[i].st.Retired?
  {
  }

  /** A new value gets the next index. */
  lemma EntryAppears(s: Source, on: set<string>, a: Tables, b: Tables, e: Entry)
    requires IndexOK(s, a) && LinksOK(s, on, a) && e.value != [] && (e.l, e.value) !in a.idx && !e.st.Retired?
    requires b.extra == a.extra + [(e.l, e.value)]
    requires var i := |s.heads| + |a.extra|;
             b.dynamic == a.dynamic[i := e] && b.idx == a.idx[(e.l, e.value) := i] && Linked(a, b, e.l, i)
    ensures |s.heads| + |a.extra| !in a.dynamic
    ensures IndexOK(s, b) && LinksOK(s, on, b)
  {
    hide IndexOK, LinkedTo, Get, Row;
    var i := |s.heads| + |a.extra|;
    IndexAppears(s, a, b, e);
    forall n: nat
      ensures Get(b.ntsm, n) == LinkedTo(s, on, b.dynamic, n) && Row(b.byNt, n) == LinkedTo(s, on, b.dynamic, n)
    {
      LinkedChanges(s, on, a.dynamic, i, e, n);
      assert Get(a.ntsm, n) == LinkedTo(s, on, a.dynamic, n) == Row(a.byNt, n);
    }
  }

  /** The tables after a rebuild has passed the productions below `n`. */
  ghost predicate LinkedBelow(s: Source, on: set<string>, k: Tables, n: nat) {
    forall l: nat :: (forall p: nat :: p in Get(k.ntsm, l) <==> p < n && p in LinkedTo(s, on, k.dynamic, l))
                     && Get(k.ntsm, l) == Row(k.byNt, l)
  }

  ghost predicate SameEntries(a: Tables, b: Tables) {
    a == b.(ntsm := a.ntsm, byNt := a.byNt)
  }

  lemma Renamed(s: Source, a: Tables, b: Tables, n: nat)
    requires IndexOK(s, a) && PendingOK(a) && SameEntries(a, b)
    ensures IndexOK(s, b) && PendingOK(b)
    ensures n < |s.heads| + |b.extra| && n !in b.dynamic ==> n < |s.heads|
  {
  }

  lemma LinkedBelowNone(s: Source, on: set<string>, k: Tables)
    requires k.ntsm == map[] && k.byNt == []
    ensures LinkedBelow(s, on, k, 0)
  {
  }

  lemma LinkedBelowNext(s: Source, on: set<string>, a: Tables, b: Tables, n: nat)
    requires IndexOK(s, a) && LinkedBelow(s, on, a, n) && n < |s.heads| + |a.extra|
    requires b == a.(ntsm := b.ntsm, byNt := b.byNt)
    requires if n in a.dynamic then (if a.dynamic[n].st.Retired? then a == b else Linked(a, b, a.dynamic[n].l, n))
             else if Enabled(s, on, n) then Linked(a, b, s.heads[n], n) else a == b
    ensures LinkedBelow(s, on, b, n + 1)
  {
    forall l: nat
      ensures (forall p: nat :: p in Get(b.ntsm, l) <==> p < n + 1 && p in LinkedTo(s, on, b.dynamic, l))
      ensures Get(b.ntsm, l) == Row(b.byNt, l)
    {
      assert Get(a.ntsm, l) == Row(a.byNt, l);
      forall p: nat ensures p in Get(b.ntsm, l) <==> p < n + 1 && p in LinkedTo(s, on, b.dynamic, l) {
        assert p in Get(a.ntsm, l) <==> p < n && p in LinkedTo(s, on, a.dynamic, l);
      }
    }
  }

  lemma LinkedBelowAll(s: Source, on: set<string>, k: Tables, n: nat)
    requires IndexOK(s, k) && LinkedBelow(s, on, k, n) && n == |s.heads| + |k.extra|
    ensures LinksOK(s, on, k)
  {
    forall l: nat
      ensures Get(k.ntsm, l) == LinkedTo(s, on, k.dynamic, l) && Row(k.byNt, l) == LinkedTo(s, on, k.dynamic, l)
    {
      assert Get(k.ntsm, l) == Row(k.byNt, l);
      forall p: nat ensures p in Get(k.ntsm, l) <==> p in LinkedTo(s, on, k.dynamic, l) {
      }
    }
  }

  function Without(s: seq<nat>, x: nat): (r: seq<nat>)
    ensures forall i :: i in r <==> i in s && i != x
    ensures x !in s ==> r == s
  {
    if s == [] then []
    else
      var rest := Without(s[..|s| - 1], x);
      assert s == s[..|s| - 1] + [s[|s| - 1]];
      if s[|s| - 1] == x then rest else rest + [s[|s| - 1]]
  }

  /** `at` names, in order, the places of `was` that hold something else than `x`, and `kept` is what they hold. */
  ghost predicate KeptAt(at: seq<nat>, kept: seq<nat>, was: seq<nat>, x: nat) {
    && |at| == |kept| && (forall i, j :: 0 <= i < j < |at| ==> at[i] < at[j])
    && (forall j :: 0 <= j < |at| ==> at[j] < |was| && was[at[j]] == kept[j] && kept[j] != x)
    && (forall k :: 0 <= k < |was| && was[k] != x ==> k in at)
  }

  ghost predicate ErasedFrom(kept: seq<nat>, was: seq<nat>, x: nat) {
    exists at: seq<nat> :: KeptAt(at, kept, was, x)
  }

  lemma {:induction false} WithoutErases(s: seq<nat>, x: nat)
    ensures ErasedFrom(Without(s, x), s, x)
    decreases |s|
  {
    hide KeptAt;
    if s == [] {
      NothingKept(x);
    } else {
      var n := |s| - 1;
      WithoutErases(s[..n], x);
      var at: seq<nat> :| KeptAt(at, Without(s[..n], x), s[..n], x);
      KeptMore(at, Without(s[..n], x), s, x);
    }
  }

  lemma NothingKept(x: nat)
    ensures KeptAt([], [], [], x)
  {
  }

  lemma KeptMore(at: seq<nat>, kept: seq<nat>, s: seq<nat>, x: nat)
    requires s != [] && KeptAt(at, kept, s[..|s| - 1], x)
    ensures var n := |s| - 1; if s[n] == x then KeptAt(at, kept, s, x) else KeptAt(at + [n], kept + [s[n]], s, x)
  {
    var n := |s| - 1;
    if s[n] != x {
      var r := at + [n];
      forall k | 0 <= k < |s| && s[k] != x ensures k in r {
        if k < n {
          assert s[..n][k] == s[k];
        }
      }
    }
  }

  lemma {:induction false} WithoutDistinct(s: seq<nat>, x: nat)
    requires Distinct(s)
    ensures Distinct(Without(s, x))
    decreases |s|
  {
    if s != [] {
      WithoutDistinct(s[..|s| - 1], x);
      assert s[|s| - 1] !in s[..|s| - 1];
    }
  }

  // ---- what a parse may do to the entries

  function Elements(s: seq<Value>): set<Value> {
    set v | v in s
  }

  ghost predicate Permanent(e: Entry) {
    e.st.Host? || e.st.Committed?
  }

  /** Growing keeps every permanent entry and lets the others become pending; nothing else. */
  ghost predicate Grown(a: Tables, b: Tables) {
    && a.extra <= b.extra
    && (forall x :: x in a.idx ==> x in b.idx && b.idx[x] == a.idx[x])
    && (forall i :: i in a.dynamic ==> i in b.dynamic && SameName(a.dynamic[i], b.dynamic[i]))
    && (forall i :: i in a.dynamic && Permanent(a.dynamic[i]) ==> b.dynamic[i] == a.dynamic[i])
    && (forall i :: i in b.dynamic && !(i in a.dynamic && Permanent(a.dynamic[i])) ==> !Permanent(b.dynamic[i]))
    && (forall i :: i in a.dynamic && a.dynamic[i].st.Pending? ==> b.dynamic[i].st.Pending?)
  }

  /** The end of a parse: what was confirmed is committed and reported, the rest is retired. */
  function Decided(e: Entry): Entry {
    if !e.st.Pending? then e else Entry(if e.confirmed then Committed else Retired, e.l, e.value, {}, false)
  }

  function Dropped(e: Entry): Entry {
    if !e.st.Pending? then e else Entry(Retired, e.l, e.value, {}, false)
  }

  /** Every committed value is in the context, and every value of the context is permanent. */
  ghost predicate Settled(k: Tables, ctx: Context) {
    && (forall i :: i in k.dynamic && k.dynamic[i].st.Committed? ==> k.dynamic[i].value in Get(ctx, k.dynamic[i].l))
    && (forall l: nat, v :: v in Get(ctx, l) && v != [] ==>
        (l, v) in k.idx && k.idx[(l, v)] in k.dynamic && Permanent(k.dynamic[k.idx[(l, v)]]))
  }

  /** What a commit adds to the context. */
  ghost predicate Reported(before: Tables, ctx: Context, now: Context) {
    forall l: nat, v :: v in Get(now, l) <==>
      v in Get(ctx, l) || exists i :: && i in before.pending && i in before.dynamic && before.dynamic[i].confirmed
                                      && (before.dynamic[i].l, before.dynamic[i].value) == (l, v)
  }

  /** Synchronising, entry by entry. */
  function Synced(ctx: Context, e: Entry): Entry {
    if e.st.Host? then e
    else if e.value in Get(ctx, e.l) then Entry(Committed, e.l, e.value, {}, false)
    else if e.st.Committed? then e.(st := Retired)
    else e
  }

  /** A synchronisation: every entry goes where the context says, and every value of the context gets an entry. */
  ghost predicate SyncedAll(ctx: Context, a: Tables, b: Tables) {
    && a.extra <= b.extra
    && (forall x :: x in a.idx ==> x in b.idx && b.idx[x] == a.idx[x])
    && (forall i :: i in a.dynamic ==> i in b.dynamic && b.dynamic[i] == Synced(ctx, a.dynamic[i]))
    && (forall i :: i in b.dynamic && i !in a.dynamic ==>
          b.dynamic[i].value in Get(ctx, b.dynamic[i].l)
              && b.dynamic[i] == Entry(Committed, b.dynamic[i].l, b.dynamic[i].value, {}, false))
    && (forall l: nat, v :: v in Get(ctx, l) && v != [] ==> (l, v) in b.idx)
  }

  /** Part of a synchronisation: the pairs in `gone` have been retired if they were committed, those in `put` are in. */
  function PartSynced(e: Entry, gone: set<(nat, Value)>, put: set<(nat, Value)>): Entry {
    if e.st.Host? then e
    else if (e.l, e.value) in put then Entry(Committed, e.l, e.value, {}, false)
    else if (e.l, e.value) in gone && e.st.Committed? then e.(st := Retired)
    else e
  }

  ghost predicate SyncedPart(ctx: Context, a: Tables, b: Tables, gone: set<(nat, Value)>, put: set<(nat, Value)>) {
    && a.extra <= b.extra
    && (forall x :: x in a.idx ==> x in b.idx && b.idx[x] == a.idx[x])
    && (forall i :: i in a.dynamic ==> i in b.dynamic && b.dynamic[i] == PartSynced(a.dynamic[i], gone, put))
    && (forall i :: i in b.dynamic && i !in a.dynamic ==>
          (b.dynamic[i].l, b.dynamic[i].value) in put
              && b.dynamic[i] == Entry(Committed, b.dynamic[i].l, b.dynamic[i].value, {}, false))
    && (forall x :: x in put ==> x in b.idx && x.1 in Get(ctx, x.0) && x.1 != [])
    && (forall x :: x in gone ==> x.1 !in Get(ctx, x.0))
    && (Settled(a, ctx) ==> b == a)
  }

  /** One value got the state `st`, in its old entry or in a new one; nothing else changed. */
  ghost predicate Put(a: Tables, b: Tables, l: nat, v: Value, st: State) {
    && a.extra <= b.extra && (l, v) in b.idx && b.idx[(l, v)] in b.dynamic
    && b.dynamic[b.idx[(l, v)]] == Entry(st, l, v, {}, false)
    && (forall x :: x in a.idx ==> x in b.idx && b.idx[x] == a.idx[x])
    && (forall i :: i in a.dynamic && i != b.idx[(l, v)] ==> i in b.dynamic && b.dynamic[i] == a.dynamic[i])
    && (forall i :: i in b.dynamic && i != b.idx[(l, v)] ==> i in a.dynamic)
    && ((l, v) !in a.idx ==> b.idx[(l, v)] !in a.dynamic)
  }

  function Hosted(e: Entry, l: nat, vs: set<Value>): Entry {
    if e.l == l && e.value in vs then Entry(Host, l, e.value, {}, false) else e
  }

  /** Host values of one nonterminal: each has a host entry, whatever it was before; the rest is as it was. */
  ghost predicate HostedFor(a: Tables, b: Tables, l: nat, vs: set<Value>) {
    && a.extra <= b.extra
    && (forall x :: x in a.idx ==> x in b.idx && b.idx[x] == a.idx[x])
    && (forall i :: i in a.dynamic ==> i in b.dynamic && b.dynamic[i] == Hosted(a.dynamic[i], l, vs))
    && (forall i :: i in b.dynamic && i !in a.dynamic ==>
          b.dynamic[i].l == l && b.dynamic[i].value in vs
              && b.dynamic[i] == Entry(Host, l, b.dynamic[i].value, {}, false))
    && (forall v :: v in vs ==> (l, v) in b.idx)
  }

  lemma GrownTwice(a: Tables, b: Tables, c: Tables)
    requires Grown(a, b) && Grown(b, c)
    ensures Grown(a, c)
  {
  }

  /** A parse that starts with nothing pending leaves, after a rollback, exactly what was linked before it. */
  lemma RollbackRestores(s: Source, on: set<string>, a: Tables, b: Tables, c: Tables)
    requires a.pending == [] && PendingOK(a) && Grown(a, b)
    requires c.dynamic == map i | i in b.dynamic :: Dropped(b.dynamic[i])
    ensures forall n :: LinkedTo(s, on, c.dynamic, n) == LinkedTo(s, on, a.dynamic, n)
  {
    forall n ensures LinkedTo(s, on, c.dynamic, n) == LinkedTo(s, on, a.dynamic, n) {
      forall i
        ensures i in c.dynamic && c.dynamic[i].l == n && !c.dynamic[i].st.Retired? <==>
                i in a.dynamic && a.dynamic[i].l == n && !a.dynamic[i].st.Retired?
      {
      }
    }
  }

  /** A context a grammar is settled in stays one through a parse and its commit. */
  lemma CommitSettles(s: Source, a: Tables, b: Tables, c: Tables, ctx: Context, now: Context)
    requires Settled(a, ctx) && Grown(a, b) && IndexOK(s, b) && PendingOK(b)
    requires c.idx == b.idx && c.dynamic == map i | i in b.dynamic :: Decided(b.dynamic[i])
    requires Reported(b, ctx, now)
    ensures Settled(c, now)
  {
    forall i | i in c.dynamic && c.dynamic[i].st.Committed? ensures c.dynamic[i].value in Get(now, c.dynamic[i].l) {
      if b.dynamic[i].st.Pending? {
        assert i in b.pending;
      } else {
        assert Permanent(b.dynamic[i]);
      }
    }
    forall l: nat, v | v in Get(now, l) && v != []
      ensures (l, v) in c.idx && c.idx[(l, v)] in c.dynamic && Permanent(c.dynamic[c.idx[(l, v)]])
    {
      if v in Get(ctx, l) {
        assert Permanent(a.dynamic[a.idx[(l, v)]]);
      }
    }
  }

  /** After synchronising with a context the grammar is settled in it. */
  lemma SyncSettles(s: Source, a: Tables, b: Tables, ctx: Context)
    requires SyncedAll(ctx, a, b) && IndexOK(s, b)
    ensures Settled(b, ctx)
  {
    forall l: nat, v | v in Get(ctx, l) && v != []
      ensures (l, v) in b.idx && b.idx[(l, v)] in b.dynamic && Permanent(b.dynamic[b.idx[(l, v)]])
    {
    }
  }

  /** The outcome of one successful addition: the value is pending under its own index and bears the pair's mark. */
  ghost predicate GrownBy(a: Tables, b: Tables, i: nat, l: nat, value: Value, pc: Pair) {
    && (l, value) in b.idx && b.idx[(l, value)] == i && i in b.dynamic && b.dynamic[i].st.Pending?
    && ((l, value) in a.idx ==> a.idx[(l, value)] == i)
    && b.dynamic[i].grownBy == (if i in a.dynamic && a.dynamic[i].st.Pending? then a.dynamic[i].grownBy else {}) + {pc}
    && b.dynamic[i].confirmed == (i in a.dynamic && a.dynamic[i].st.Pending? && a.dynamic[i].confirmed)
    && (forall j :: j in a.dynamic && j != i ==> j in b.dynamic && b.dynamic[j] == a.dynamic[j])
    && (forall j :: j in b.dynamic && j != i ==> j in a.dynamic)
  }

  lemma FrameTables(s: Source, on: set<string>, a: Tables, b: Tables)
    requires IndexOK(s, a) && LinksOK(s, on, a) && b == a.(pending := b.pending)
    ensures IndexOK(s, b) && LinksOK(s, on, b)
  {
    hide LinkedTo;
  }

  lemma FreshIndex(s: Source, k: Tables)
    requires IndexOK(s, k)
    ensures |s.heads| + |k.extra| !in k.dynamic
    ensures forall x :: x in k.idx ==> k.idx[x] in k.dynamic && (k.dynamic[k.idx[x]].l, k.dynamic[k.idx[x]].value) == x
  {
  }

  /** Marks alone do not change what is linked. */
  lemma Relabelled(s: Source, on: set<string>, a: Tables, b: Tables)
    requires IndexOK(s, a) && LinksOK(s, on, a) && b == a.(dynamic := b.dynamic) && b.dynamic.Keys == a.dynamic.Keys
    requires forall i :: i in a.dynamic ==> SameName(b.dynamic[i], a.dynamic[i]) && b.dynamic[i].st == a.dynamic[i].st
    ensures IndexOK(s, b) && LinksOK(s, on, b)
  {
    assert IndexOK(s, b);
    forall n: nat
      ensures Get(b.ntsm, n) == LinkedTo(s, on, b.dynamic, n) && Row(b.byNt, n) == LinkedTo(s, on, b.dynamic, n)
    {
      assert LinkedTo(s, on, a.dynamic, n) == LinkedTo(s, on, b.dynamic, n);
    }
  }

  lemma Known(s: Source, on: set<string>, k: Tables, l: nat, value: Value)
    requires OK(s, on, k)
    ensures IndexOK(s, k) && PendingOK(k) && LinksOK(s, on, k)
    ensures (l, value) in k.idx ==> var i := k.idx[(l, value)];
              i in k.dynamic && SameName(k.dynamic[i], Entry(Host, l, value, {}, false)) && value != []
  {
  }

  lemma Opened(s: Source, on: set<string>, k: Tables)
    requires OK(s, on, k)
    ensures IndexOK(s, k) && PendingOK(k) && LinksOK(s, on, k)
  {
  }

  lemma GrownTrivially(a: Tables)
    ensures Grown(a, a)
  {
  }

  lemma Repended(s: Source, on: set<string>, a: Tables, b: Tables, i: nat, l: nat, value: Value, pc: Pair)
    requires OK(s, on, a) && (l, value) in a.idx && a.idx[(l, value)] == i && i in a.dynamic && !Permanent(a.dynamic[i])
    requires b == a.(dynamic := b.dynamic, pending := b.pending, ntsm := b.ntsm, byNt := b.byNt)
    requires b.pending == if a.dynamic[i].st.Pending? then a.pending else a.pending + [i]
    requires i in b.dynamic && b.dynamic == a.dynamic[i := b.dynamic[i]] && SameName(b.dynamic[i], a.dynamic[i])
    requires b.dynamic[i].st.Pending?
    requires b.dynamic[i].grownBy == (if a.dynamic[i].st.Pending? then a.dynamic[i].grownBy else {}) + {pc}
    requires b.dynamic[i].confirmed == (a.dynamic[i].st.Pending? && a.dynamic[i].confirmed)
    requires var m := b.(pending := a.pending); IndexOK(s, m) && LinksOK(s, on, m)
    ensures OK(s, on, b) && Grown(a, b) && GrownBy(a, b, i, l, value, pc)
  {
    hide LinksOK, LinkedTo, IndexOK;
    FrameTables(s, on, b.(pending := a.pending), b);
    assert PendingOK(b);
  }

  lemma Newborn(s: Source, on: set<string>, a: Tables, b: Tables, i: nat, l: nat, value: Value, pc: Pair)
    requires OK(s, on, a) && (l, value) !in a.idx && i == |s.heads| + |a.extra|
    requires b.pending == a.pending + [i] && b.extra == a.extra + [(l, value)] && b.idx == a.idx[(l, value) := i]
    requires b.dynamic == a.dynamic[i := Entry(Pending, l, value, {pc}, false)]
    requires var m := b.(pending := a.pending); IndexOK(s, m) && LinksOK(s, on, m)
    ensures OK(s, on, b) && Grown(a, b) && GrownBy(a, b, i, l, value, pc)
  {
    hide LinksOK, LinkedTo, IndexOK;
    FrameTables(s, on, b.(pending := a.pending), b);
    FreshIndex(s, a);
    assert PendingOK(b);
  }

  function ConfirmedBy(e: Entry, parent: int, l: nat, span: Value): Entry {
    if e.st.Pending? && e.value == span && ((parent, l) in e.grownBy || (-1, l) in e.grownBy) then e.(confirmed := true)
    else e
  }

  ghost predicate ConfirmedUpTo(a: Tables, b: Tables, j: nat, parent: int, l: nat, span: Value) {
    && b == a.(dynamic := b.dynamic) && b.dynamic.Keys == a.dynamic.Keys && j <= |a.pending|
    && (forall i :: i in a.dynamic && i in a.pending[..j] ==>
        b.dynamic[i] == ConfirmedBy(a.dynamic[i], parent, l, span))
    && (forall i :: i in a.dynamic && i !in a.pending[..j] ==> b.dynamic[i] == a.dynamic[i])
  }

  lemma PendingAt(s: Source, k: Tables, j: nat)
    requires PendingOK(k) && j < |k.pending|
    ensures k.pending[j] in k.dynamic && k.dynamic[k.pending[j]].st.Pending?
    ensures k.pending[j] !in k.pending[..j] && k.pending[..j + 1] == k.pending[..j] + [k.pending[j]]
  {
    assert k.pending[j] in k.pending;
  }

  lemma NoneConfirmed(a: Tables, parent: int, l: nat, span: Value)
    ensures ConfirmedUpTo(a, a, 0, parent, l, span)
  {
  }

  lemma StillToConfirm(s: Source, a: Tables, b: Tables, j: nat, parent: int, l: nat, span: Value)
    requires PendingOK(a) && ConfirmedUpTo(a, b, j, parent, l, span) && j < |a.pending|
    ensures b.pending == a.pending && a.pending[j] in b.dynamic && b.dynamic[a.pending[j]].st.Pending?
  {
    PendingAt(s, a, j);
  }

  lemma ConfirmedNext(s: Source, a: Tables, b: Tables, c: Tables, j: nat, parent: int, l: nat, span: Value)
    requires PendingOK(a) && ConfirmedUpTo(a, b, j, parent, l, span) && j < |a.pending| && a.pending[j] in b.dynamic
    requires c == b.(dynamic := b.dynamic[a.pending[j] := ConfirmedBy(b.dynamic[a.pending[j]], parent, l, span)])
    ensures ConfirmedUpTo(a, c, j + 1, parent, l, span)
  {
    PendingAt(s, a, j);
  }

  lemma ConfirmedAll(s: Source, on: set<string>, a: Tables, b: Tables, parent: int, l: nat, span: Value)
    requires OK(s, on, a) && ConfirmedUpTo(a, b, |a.pending|, parent, l, span)
    ensures OK(s, on, b) && Grown(a, b)
    ensures b == a.(dynamic := map i | i in a.dynamic :: ConfirmedBy(a.dynamic[i], parent, l, span))
  {
    hide LinksOK, LinkedTo, IndexOK;
    assert a.pending[..|a.pending|] == a.pending;
    Relabelled(s, on, a, b);
    assert PendingOK(b);
  }

  /** A commit (keep) or a rollback has dealt with the first `j` pending entries. */
  ghost predicate DecidedUpTo(a: Tables, b: Tables, j: nat, keep: bool) {
    && b == a.(dynamic := b.dynamic, ntsm := b.ntsm, byNt := b.byNt)
    && b.dynamic.Keys == a.dynamic.Keys && j <= |a.pending|
    && (forall i :: i in a.dynamic && i !in a.pending[..j] ==> b.dynamic[i] == a.dynamic[i])
    && (forall i :: i in a.dynamic && i in a.pending[..j] ==>
        b.dynamic[i] == if keep then Decided(a.dynamic[i]) else Dropped(a.dynamic[i]))
  }

  lemma UndecidedYet(a: Tables, keep: bool)
    ensures DecidedUpTo(a, a, 0, keep)
  {
  }

  lemma Undecided(s: Source, a: Tables, b: Tables, j: nat, keep: bool)
    requires PendingOK(a) && DecidedUpTo(a, b, j, keep) && j < |a.pending|
    ensures var i := a.pending[j];
            i in a.dynamic && i in b.dynamic && b.dynamic[i] == a.dynamic[i] && b.dynamic[i].st.Pending?
  {
    PendingAt(s, a, j);
  }

  lemma DecideOne(s: Source, a: Tables, b: Tables, c: Tables, j: nat, keep: bool)
    requires PendingOK(a) && DecidedUpTo(a, b, j, keep) && j < |a.pending|
    requires var i := a.pending[j];
             i in a.dynamic && c == b.(dynamic :=
                 b.dynamic[i := if keep then Decided(a.dynamic[i]) else Dropped(a.dynamic[i])], ntsm := c.ntsm,
                 byNt := c.byNt)
    ensures DecidedUpTo(a, c, j + 1, keep)
  {
    PendingAt(s, a, j);
  }

  lemma DecidedAllOf(s: Source, on: set<string>, a: Tables, b: Tables, keep: bool)
    requires OK(s, on, a) && b.pending == [] && DecidedUpTo(a, b.(pending := a.pending), |a.pending|, keep)
    requires IndexOK(s, b.(pending := a.pending)) && LinksOK(s, on, b.(pending := a.pending))
    ensures OK(s, on, b) && b.extra == a.extra && b.idx == a.idx
    ensures keep ==> b.dynamic == map i | i in a.dynamic :: Decided(a.dynamic[i])
    ensures !keep ==> b.dynamic == map i | i in a.dynamic :: Dropped(a.dynamic[i])
  {
    hide LinksOK, LinkedTo, IndexOK;
    assert a.pending[..|a.pending|] == a.pending;
    FrameTables(s, on, b.(pending := a.pending), b);
    assert PendingOK(b);
  }

  ghost predicate NewlyReported(a: Tables, j: nat, l: nat, v: Value)
    requires j <= |a.pending|
  {
    exists i :: i in a.pending[..j] && i in a.dynamic && a.dynamic[i].confirmed
        && (a.dynamic[i].l, a.dynamic[i].value) == (l, v)
  }

  ghost predicate ReportedUpTo(a: Tables, ctx: Context, now: Context, j: nat) {
    j <= |a.pending| && forall l: nat, v :: v in Get(now, l) <==> v in Get(ctx, l) || NewlyReported(a, j, l, v)
  }

  ghost predicate AnyConfirmed(a: Tables, j: nat) {
    j <= |a.pending| && exists i :: i in a.pending[..j] && i in a.dynamic && a.dynamic[i].confirmed
  }

  lemma ReportNone(a: Tables, ctx: Context)
    ensures ReportedUpTo(a, ctx, ctx, 0) && !AnyConfirmed(a, 0)
  {
  }

  lemma ReportOne(a: Tables, ctx: Context, now: Context, j: nat)
    requires PendingOK(a) && ReportedUpTo(a, ctx, now, j) && j < |a.pending| && a.pending[j] in a.dynamic
    requires a.dynamic[a.pending[j]].confirmed
    ensures var e := a.dynamic[a.pending[j]]; ReportedUpTo(a, ctx, now[e.l := Get(now, e.l) + {e.value}], j + 1)
    ensures AnyConfirmed(a, j + 1)
  {
    var i := a.pending[j];
    var e := a.dynamic[i];
    var then' := now[e.l := Get(now, e.l) + {e.value}];
    assert a.pending[..j + 1] == a.pending[..j] + [i];
    assert i in a.pending[..j + 1];
    forall l: nat, v ensures v in Get(then', l) <==> v in Get(ctx, l) || NewlyReported(a, j + 1, l, v) {
      assert NewlyReported(a, j + 1, l, v) <==> NewlyReported(a, j, l, v) || (l, v) == (e.l, e.value);
      assert v in Get(then', l) <==> v in Get(now, l) || (l, v) == (e.l, e.value);
    }
  }

  lemma SkipOne(a: Tables, ctx: Context, now: Context, j: nat)
    requires PendingOK(a) && ReportedUpTo(a, ctx, now, j) && j < |a.pending| && a.pending[j] in a.dynamic
    requires !a.dynamic[a.pending[j]].confirmed
    ensures ReportedUpTo(a, ctx, now, j + 1) && AnyConfirmed(a, j + 1) == AnyConfirmed(a, j)
  {
    assert a.pending[..j + 1] == a.pending[..j] + [a.pending[j]];
    forall l: nat, v ensures NewlyReported(a, j + 1, l, v) == NewlyReported(a, j, l, v) {
    }
  }

  lemma ReportedAll(s: Source, a: Tables, ctx: Context, now: Context)
    requires PendingOK(a) && ReportedUpTo(a, ctx, now, |a.pending|)
    ensures Reported(a, ctx, now)
    ensures AnyConfirmed(a, |a.pending|) <==>
            exists i :: i in a.dynamic && a.dynamic[i].st.Pending? && a.dynamic[i].confirmed
  {
    assert a.pending[..|a.pending|] == a.pending;
  }

  lemma Named(s: Source, k: Tables, i: nat)
    requires IndexOK(s, k) && i in k.dynamic
    ensures var x := (k.dynamic[i].l, k.dynamic[i].value); x in k.idx && k.idx[x] == i && x.1 != []
  {
  }

  lemma NamedBack(s: Source, k: Tables, l: nat, v: Value)
    requires IndexOK(s, k) && (l, v) in k.idx
    ensures var i := k.idx[(l, v)]; i in k.dynamic && k.dynamic[i].l == l && k.dynamic[i].value == v
  {
  }

  lemma PromotedPending(a: Tables, b: Tables, i: nat, e: Entry)
    requires PendingOK(a) && i in a.dynamic && !e.st.Pending? && e.grownBy == {} && !e.confirmed
    requires b.pending == Without(a.pending, i) && b.dynamic == a.dynamic[i := e]
    ensures PendingOK(b)
  {
    hide Distinct, Without;
    WithoutDistinct(a.pending, i);
    assert forall k :: k in b.pending <==> k in a.pending && k != i;
  }

  /** An entry that gets a permanent state leaves the pending list, is linked, and loses its marks. */
  lemma Promoted(s: Source, on: set<string>, a: Tables, b: Tables, i: nat, st: State)
    requires OK(s, on, a) && i in a.dynamic && (st.Host? || st.Committed?)
    requires b.extra == a.extra && b.idx == a.idx && b.pending == Without(a.pending, i)
    requires b.dynamic == a.dynamic[i := Entry(st, a.dynamic[i].l, a.dynamic[i].value, {}, false)]
    requires if a.dynamic[i].st.Retired? then Linked(a, b, a.dynamic[i].l, i)
             else Linked(a, b, a.dynamic[i].l, i) || (a.ntsm == b.ntsm && a.byNt == b.byNt)
    ensures OK(s, on, b) && Put(a, b, a.dynamic[i].l, a.dynamic[i].value, st)
  {
    hide IndexOK, PendingOK, LinksOK, LinkedTo, Linked;
    EntryChanges(s, on, a, b, i, b.dynamic[i]);
    PromotedPending(a, b, i, b.dynamic[i]);
    Named(s, a, i);
  }

  lemma AdoptedPending(a: Tables, b: Tables, i: nat, e: Entry)
    requires PendingOK(a) && i !in a.dynamic && !e.st.Pending? && e.grownBy == {} && !e.confirmed
    requires b.dynamic == a.dynamic[i := e] && b.pending == a.pending
    ensures PendingOK(b)
  {
  }

  lemma AdoptedPut(a: Tables, b: Tables, i: nat, e: Entry)
    requires (e.l, e.value) !in a.idx && i !in a.dynamic && e == Entry(e.st, e.l, e.value, {}, false)
    requires b.extra == a.extra + [(e.l, e.value)] && b.idx == a.idx[(e.l, e.value) := i]
    requires b.dynamic == a.dynamic[i := e]
    ensures Put(a, b, e.l, e.value, e.st)
  {
  }

  lemma Adopted(s: Source, on: set<string>, a: Tables, b: Tables, e: Entry)
    requires OK(s, on, a) && (e.l, e.value) !in a.idx && e == Entry(e.st, e.l, e.value, {}, false) && !e.st.Pending?
    requires var i := |s.heads| + |a.extra|;
             b.extra == a.extra + [(e.l, e.value)] && b.idx == a.idx[(e.l, e.value) := i]
                 && b.dynamic == a.dynamic[i := e]
    requires b.pending == a.pending && IndexOK(s, b) && LinksOK(s, on, b)
    ensures OK(s, on, b) && Put(a, b, e.l, e.value, e.st)
  {
    hide IndexOK, LinksOK, PendingOK, LinkedTo, Put;
    var i := |s.heads| + |a.extra|;
    FreshIndex(s, a);
    AdoptedPending(a, b, i, e);
    AdoptedPut(a, b, i, e);
  }

  lemma HostedNext(s: Source, a: Tables, b: Tables, c: Tables, l: nat, vs: set<Value>, v: Value)
    requires IndexOK(s, a) && IndexOK(s, b) && HostedFor(a, b, l, vs) && Put(b, c, l, v, Host)
    ensures HostedFor(a, c, l, vs + {v})
  {
    hide IndexOK;
    if (l, v) in b.idx {
      NamedBack(s, b, l, v);
    }
    forall i | i in a.dynamic ensures i in c.dynamic && c.dynamic[i] == Hosted(a.dynamic[i], l, vs + {v}) {
      Named(s, a, i);
    }
  }

  lemma SyncPutEntry(ctx: Context, a: Tables, b: Tables, c: Tables, gone: set<(nat, Value)>, put: set<(nat, Value)>,
          l: nat, v: Value, i: nat)
    requires i in a.dynamic && i in b.dynamic && b.dynamic[i] == PartSynced(a.dynamic[i], gone, put) && (l, v) !in gone
    requires var x := (a.dynamic[i].l, a.dynamic[i].value); x in b.idx && b.idx[x] == i
    requires (l, v) in b.idx ==> && b.idx[(l, v)] in b.dynamic
                                 && (b.dynamic[b.idx[(l, v)]].l, b.dynamic[b.idx[(l, v)]].value) == (l, v)
    requires a.dynamic[i].st.Committed? ==> a.dynamic[i].grownBy == {} && !a.dynamic[i].confirmed
    requires if (l, v) in b.idx && Permanent(b.dynamic[b.idx[(l, v)]]) then c == b else Put(b, c, l, v, Committed)
    ensures i in c.dynamic && c.dynamic[i] == PartSynced(a.dynamic[i], gone, put + {(l, v)})
  {
  }

  lemma SyncPut(s: Source, ctx: Context, a: Tables, b: Tables, c: Tables, gone: set<(nat, Value)>,
          put: set<(nat, Value)>, l: nat, v: Value)
    requires IndexOK(s, a) && PendingOK(a) && IndexOK(s, b) && SyncedPart(ctx, a, b, gone, put) && v in Get(ctx, l)
    requires v != []
    requires if (l, v) in b.idx && b.idx[(l, v)] in b.dynamic && Permanent(b.dynamic[b.idx[(l, v)]]) then c == b
             else Put(b, c, l, v, Committed)
    ensures SyncedPart(ctx, a, c, gone, put + {(l, v)})
  {
    hide IndexOK, PartSynced, Get;
    if (l, v) in b.idx {
      NamedBack(s, b, l, v);
    }
    forall i | i in a.dynamic ensures i in c.dynamic && c.dynamic[i] == PartSynced(a.dynamic[i], gone, put + {(l, v)}) {
      Named(s, a, i);
      SyncPutEntry(ctx, a, b, c, gone, put, l, v, i);
    }
  }

  lemma SyncGone(s: Source, ctx: Context, a: Tables, b: Tables, c: Tables, gone: set<(nat, Value)>,
          put: set<(nat, Value)>, l: nat, v: Value)
    requires IndexOK(s, a) && IndexOK(s, b) && SyncedPart(ctx, a, b, gone, put) && v !in Get(ctx, l) && (l, v) in b.idx
    requires b.idx[(l, v)] in b.dynamic
    requires var i := b.idx[(l, v)];
             if b.dynamic[i].st.Committed? then
                 c.dynamic == b.dynamic[i := b.dynamic[i].(st := Retired)] && c.extra == b.extra
                 && c.idx == b.idx else c == b
    ensures SyncedPart(ctx, a, c, gone + {(l, v)}, put)
  {
    hide IndexOK;
    NamedBack(s, b, l, v);
    forall k | k in a.dynamic ensures k in c.dynamic && c.dynamic[k] == PartSynced(a.dynamic[k], gone + {(l, v)}, put) {
      Named(s, a, k);
    }
  }

  lemma RetiredOne(s: Source, on: set<string>, a: Tables, b: Tables, i: nat)
    requires OK(s, on, a) && i in a.dynamic && a.dynamic[i].st.Committed?
    requires b == a.(dynamic := a.dynamic[i := a.dynamic[i].(st := Retired)], ntsm := b.ntsm, byNt := b.byNt)
    requires Unlinked(a, b, a.dynamic[i].l, i)
    ensures OK(s, on, b)
  {
    EntryChanges(s, on, a, b, i, b.dynamic[i]);
    hide LinksOK, LinkedTo, Unlinked;
  }

  ghost predicate AllGone(k: Tables, ctx: Context, gone: set<(nat, Value)>, done: set<nat>) {
    forall x :: x in k.idx && x.0 in done && x.1 !in Get(ctx, x.0) ==> x in gone
  }

  ghost predicate AllPut(ctx: Context, put: set<(nat, Value)>, done: set<nat>) {
    forall l: nat, v :: l in done && v in Get(ctx, l) && v != [] ==> (l, v) in put
  }

  lemma OneMoreDone(a: Tables, ctx: Context, gone: set<(nat, Value)>, gone': set<(nat, Value)>, put: set<(nat, Value)>,
          put': set<(nat, Value)>,
                    done: set<nat>, n: nat)
    requires AllGone(a, ctx, gone, done) && AllPut(ctx, put, done) && gone <= gone' && put <= put'
    requires forall x :: x in a.idx && x.0 == n && x.1 !in Get(ctx, n) ==> x in gone'
    requires forall v :: v in Get(ctx, n) && v != [] ==> (n, v) in put'
    ensures AllGone(a, ctx, gone', done + {n}) && AllPut(ctx, put', done + {n})
  {
  }

  lemma NothingDone(a: Tables, ctx: Context)
    ensures AllGone(a, ctx, {}, {}) && AllPut(ctx, {}, {})
  {
  }

  lemma SyncedEntry(ctx: Context, e: Entry, gone: set<(nat, Value)>, put: set<(nat, Value)>)
    requires e.value in Get(ctx, e.l) ==> (e.l, e.value) in put
    requires e.value !in Get(ctx, e.l) ==> (e.l, e.value) in gone && (e.l, e.value) !in put
    ensures PartSynced(e, gone, put) == Synced(ctx, e)
  {
  }

  lemma SyncDone(s: Source, ctx: Context, a: Tables, b: Tables, gone: set<(nat, Value)>, put: set<(nat, Value)>,
          done: set<nat>)
    requires IndexOK(s, a) && PendingOK(a) && SyncedPart(ctx, a, b, gone, put)
    requires AllGone(a, ctx, gone, done) && AllPut(ctx, put, done)
    requires (forall x :: x in a.idx ==> x.0 in done) && ctx.Keys <= done
    ensures SyncedAll(ctx, a, b)
  {
    hide IndexOK, PendingOK, PartSynced, Synced, Get, Settled;
    forall i | i in a.dynamic ensures i in b.dynamic && b.dynamic[i] == Synced(ctx, a.dynamic[i]) {
      Named(s, a, i);
      var e := a.dynamic[i];
      assert (e.l, e.value) in put ==> e.value in Get(ctx, e.l);
      AtKeys(ctx, e.l, e.value, done);
      SyncedEntry(ctx, e, gone, put);
    }
    forall l: nat, v | v in Get(ctx, l) && v != [] ensures (l, v) in b.idx {
      AtKeys(ctx, l, v, done);
    }
  }

  lemma AtKeys(ctx: Context, l: nat, v: Value, done: set<nat>)
    requires ctx.Keys <= done
    ensures v in Get(ctx, l) ==> l in done
  {
  }

  lemma HostedNone(a: Tables, l: nat)
    ensures HostedFor(a, a, l, {})
  {
  }

  lemma AlreadyHost(s: Source, on: set<string>, a: Tables, i: nat)
    requires OK(s, on, a) && i in a.dynamic && a.dynamic[i].st.Host?
    ensures Put(a, a, a.dynamic[i].l, a.dynamic[i].value, Host)
  {
  }

  lemma NotPending(s: Source, k: Tables, i: nat)
    requires PendingOK(k) && i in k.dynamic
    ensures !k.dynamic[i].st.Pending? ==> Without(k.pending, i) == k.pending
  {
  }

  lemma SyncStarts(s: Source, on: set<string>, ctx: Context, a: Tables)
    requires OK(s, on, a)
    ensures SyncedPart(ctx, a, a, {}, {}) && IndexOK(s, a) && PendingOK(a)
  {
  }

  lemma IdxGrows(ctx: Context, a: Tables, b: Tables, gone: set<(nat, Value)>, put: set<(nat, Value)>)
    requires SyncedPart(ctx, a, b, gone, put)
    ensures forall x :: x in a.idx ==> x in b.idx
  {
  }

  lemma SyncEnds(s: Source, on: set<string>, ctx: Context, a: Tables, b: Tables, gone: set<(nat, Value)>,
          put: set<(nat, Value)>, done: set<nat>)
    requires OK(s, on, a) && OK(s, on, b) && SyncedPart(ctx, a, b, gone, put) && AllGone(a, ctx, gone, done)
    requires AllPut(ctx, put, done)
    requires (forall x :: x in a.idx ==> x.0 in done) && ctx.Keys <= done
    ensures SyncedAll(ctx, a, b) && Settled(b, ctx)
    ensures Settled(a, ctx) ==> b == a
  {
    SettledStays(ctx, a, b, gone, put);
    hide LinksOK, SyncedPart, SyncedAll, Settled, AllGone, AllPut, IndexOK, PendingOK;
    Opened(s, on, a);
    SyncDone(s, ctx, a, b, gone, put, done);
    SyncSettles(s, a, b, ctx);
  }

  lemma SettledStays(ctx: Context, a: Tables, b: Tables, gone: set<(nat, Value)>, put: set<(nat, Value)>)
    requires SyncedPart(ctx, a, b, gone, put)
    ensures Settled(a, ctx) ==> b == a
  {
  }

  lemma RollbackLinks(s: Source, on: set<string>, a: Tables, b: Tables, c: Tables)
    requires OK(s, on, a) && OK(s, on, c) && a.pending == [] && Grown(a, b)
    requires c.dynamic == map i | i in b.dynamic :: Dropped(b.dynamic[i])
    ensures forall n: nat :: Get(c.ntsm, n) == Get(a.ntsm, n) && Row(c.byNt, n) == Row(a.byNt, n)
  {
    hide LinkedTo, IndexOK, Grown, Dropped;
    RollbackRestores(s, on, a, b, c);
  }

  datatype Event = Grow(l: nat, value: Value, hook: Pair) | Complete(parent: int, child: nat, span: Value)

  // ---- what a list of events means

  /** Event `i` adds the value while the hook of a pair runs, or outside any hook. */
  predicate GrewAt(events: seq<Event>, i: int, l: nat, v: Value) {
    0 <= i < |events| && events[i].Grow? && events[i].l == l && events[i].value == v
  }

  /** Event `j` completes the child of the pair under its parent. The parent -1 stands for every parent. */
  predicate CompletedAt(events: seq<Event>, j: int, pair: Pair, v: Value) {
    && 0 <= j < |events| && events[j].Complete? && events[j].span == v
    && events[j].child == pair.1 && (pair.0 == -1 || events[j].parent == pair.0)
  }

  /** What confirms an addition: the pair of its hook, or its own nonterminal below any parent. */
  function PairOf(l: nat, hook: Pair): Pair {
    if hook.1 == -1 then (-1, l) else hook
  }

  /** The value is added, and later the span of what confirms it is completed. */
  ghost predicate GrownAndCompleted(events: seq<Event>, l: nat, v: Value) {
    exists i: nat, j: nat :: i < j && GrewAt(events, i, l, v) && CompletedAt(events, j, PairOf(l, events[i].hook), v)
  }

  predicate HasEntry(k: Tables, l: nat, v: Value) {
    (l, v) in k.idx && k.idx[(l, v)] in k.dynamic
  }

  function EntryOf(k: Tables, l: nat, v: Value): Entry
    requires HasEntry(k, l, v)
  {
    k.dynamic[k.idx[(l, v)]]
  }

  ghost predicate StateIs(k: Tables, l: nat, v: Value, st: State) {
    HasEntry(k, l, v) && EntryOf(k, l, v).st == st
  }

  ghost predicate IsPermanent(k: Tables, l: nat, v: Value) {
    StateIs(k, l, v, Host) || StateIs(k, l, v, Committed)
  }

  /** One of the first `n` events adds the value. */
  ghost predicate GrewBelow(events: seq<Event>, n: nat, l: nat, v: Value) {
    exists i: nat :: i < n && GrewAt(events, i, l, v)
  }

  /** A pair is on the entry from before, or the hook of one of the first `n` events put it there. */
  ghost predicate Marked(a: Tables, events: seq<Event>, n: nat, l: nat, v: Value, pair: Pair) {
    || (StateIs(a, l, v, Pending) && pair in EntryOf(a, l, v).grownBy)
    || (exists i: nat :: i < n && GrewAt(events, i, l, v) && PairOf(l, events[i].hook) == pair)
  }

  /** The entry was confirmed before, or one of the first `n` events confirms a pair that is on it by then. */
  ghost predicate ConfirmedBelow(a: Tables, events: seq<Event>, n: nat, l: nat, v: Value) {
    || (StateIs(a, l, v, Pending) && EntryOf(a, l, v).confirmed)
    || (exists j: nat, pair: Pair :: j < n && CompletedAt(events, j, pair, v) && Marked(a, events, j, l, v, pair))
  }

  /** What the first `n` events do to one value that is not permanent. */
  ghost predicate ValueFollows(a: Tables, b: Tables, events: seq<Event>, n: nat, l: nat, v: Value) {
    && (StateIs(b, l, v, Pending) <==> StateIs(a, l, v, Pending) || GrewBelow(events, n, l, v))
    && (StateIs(b, l, v, Pending) ==>
          && (forall pair :: pair in EntryOf(b, l, v).grownBy <==> Marked(a, events, n, l, v, pair))
          && (EntryOf(b, l, v).confirmed <==> ConfirmedBelow(a, events, n, l, v)))
  }

  /** The tables after the first `n` events, from the tables before them. */
  ghost predicate Follows(a: Tables, b: Tables, events: seq<Event>, n: nat) {
    forall l: nat, v :: v != [] && !IsPermanent(a, l, v) ==> ValueFollows(a, b, events, n, l, v)
  }

  lemma FollowsNothing(a: Tables, events: seq<Event>)
    ensures Follows(a, a, events, 0)
  {
  }

  lemma EntryIsNamed(s: Source, k: Tables, l: nat, v: Value)
    requires IndexOK(s, k)
    ensures HasEntry(k, l, v) <==> (l, v) in k.idx
    ensures HasEntry(k, l, v) ==> EntryOf(k, l, v).l == l && EntryOf(k, l, v).value == v
  {
  }

  lemma IndexHasEntry(s: Source, k: Tables, i: nat)
    requires IndexOK(s, k) && i in k.dynamic
    ensures var e := k.dynamic[i]; HasEntry(k, e.l, e.value) && k.idx[(e.l, e.value)] == i
  {
  }

  lemma PermanentStays(s: Source, a: Tables, b: Tables, l: nat, v: Value)
    requires IndexOK(s, a) && IndexOK(s, b) && Grown(a, b)
    ensures IsPermanent(a, l, v) <==> IsPermanent(b, l, v)
  {
    hide IndexOK;
    if IsPermanent(b, l, v) {
      var i := b.idx[(l, v)];
      assert i in a.dynamic && Permanent(a.dynamic[i]);
      IndexHasEntry(s, a, i);
      EntryIsNamed(s, b, l, v);
    }
  }

  /** An addition uses the entry its value has, or a new index. */
  lemma SameOrFresh(s: Source, b: Tables, c: Tables, i: nat, l: nat, v: Value, pair: Pair)
    requires IndexOK(s, b) && IndexOK(s, c) && Grown(b, c) && GrownBy(b, c, i, l, v, pair)
    ensures (HasEntry(b, l, v) && b.idx[(l, v)] == i) || (!HasEntry(b, l, v) && i !in b.dynamic)
  {
    hide IndexOK;
    EntryIsNamed(s, b, l, v);
    EntryIsNamed(s, c, l, v);
    if i in b.dynamic {
      IndexHasEntry(s, b, i);
    }
  }

  /** An event that is no addition of the value leaves what is known of additions as it was. */
  lemma NotGrownNext(a: Tables, events: seq<Event>, n: nat, l: nat, v: Value)
    requires n < |events| && !GrewAt(events, n, l, v)
    ensures GrewBelow(events, n + 1, l, v) <==> GrewBelow(events, n, l, v)
    ensures forall pair :: Marked(a, events, n + 1, l, v, pair) <==> Marked(a, events, n, l, v, pair)
  {
    if GrewBelow(events, n + 1, l, v) {
      var i: nat :| i < n + 1 && GrewAt(events, i, l, v);
      assert i < n;
    }
    forall pair | Marked(a, events, n + 1, l, v, pair) ensures Marked(a, events, n, l, v, pair) {
      if !(StateIs(a, l, v, Pending) && pair in EntryOf(a, l, v).grownBy) {
        var i: nat :| i < n + 1 && GrewAt(events, i, l, v) && PairOf(l, events[i].hook) == pair;
        assert i < n;
      }
    }
  }

  lemma GrownNext(a: Tables, events: seq<Event>, n: nat, l: nat, v: Value)
    requires n < |events| && GrewAt(events, n, l, v)
    ensures GrewBelow(events, n + 1, l, v)
    ensures forall pair :: Marked(a, events, n + 1, l, v, pair) <==>
              Marked(a, events, n, l, v, pair) || pair == PairOf(l, events[n].hook)
  {
    forall pair
      ensures Marked(a, events, n + 1, l, v, pair) <==>
                Marked(a, events, n, l, v, pair) || pair == PairOf(l, events[n].hook)
    {
      if Marked(a, events, n + 1, l, v, pair) && !(StateIs(a, l, v, Pending) && pair in EntryOf(a, l, v).grownBy) {
        var i: nat :| i < n + 1 && GrewAt(events, i, l, v) && PairOf(l, events[i].hook) == pair;
        assert i == n || i < n;
      }
    }
  }

  lemma NotCompletedNext(a: Tables, events: seq<Event>, n: nat, l: nat, v: Value)
    requires n < |events| && events[n].Grow?
    ensures ConfirmedBelow(a, events, n + 1, l, v) <==> ConfirmedBelow(a, events, n, l, v)
  {
    hide Marked;
    if ConfirmedBelow(a, events, n + 1, l, v) && !(StateIs(a, l, v, Pending) && EntryOf(a, l, v).confirmed) {
      var j: nat, pair: Pair :| j < n + 1 && CompletedAt(events, j, pair, v) && Marked(a, events, j, l, v, pair);
      assert j < n;
    }
  }

  lemma CompletedNext(a: Tables, events: seq<Event>, n: nat, l: nat, v: Value)
    requires n < |events| && events[n].Complete?
    ensures ConfirmedBelow(a, events, n + 1, l, v) <==>
              ConfirmedBelow(a, events, n, l, v)
              || (events[n].span == v && (Marked(a, events, n, l, v, (events[n].parent, events[n].child))
                                          || Marked(a, events, n, l, v, (-1, events[n].child))))
  {
    hide Marked;
    var e := events[n];
    if ConfirmedBelow(a, events, n + 1, l, v) && !(StateIs(a, l, v, Pending) && EntryOf(a, l, v).confirmed) {
      var j: nat, pair: Pair :| j < n + 1 && CompletedAt(events, j, pair, v) && Marked(a, events, j, l, v, pair);
      if j == n {
        assert pair == (e.parent, e.child as int) || pair == (-1, e.child as int);
      }
    }
    if e.span == v && Marked(a, events, n, l, v, (e.parent, e.child)) {
      assert CompletedAt(events, n, (e.parent, e.child as int), v);
    }
    if e.span == v && Marked(a, events, n, l, v, (-1, e.child)) {
      assert CompletedAt(events, n, (-1, e.child as int), v);
    }
  }

  /** An addition, refused or not. */
  lemma FollowsGrow(s: Source, a: Tables, b: Tables, c: Tables, events: seq<Event>, n: nat, r: Option<nat>)
    requires IndexOK(s, a) && IndexOK(s, b) && IndexOK(s, c) && Grown(a, b) && Grown(b, c) && Follows(a, b, events, n)
    requires n < |events| && events[n].Grow?
    requires var e := events[n];
             && (r.None? <==> e.value == [] || IsPermanent(b, e.l, e.value)) && (r.None? ==> c == b)
             && (r.Some? ==> GrownBy(b, c, r.value, e.l, e.value, PairOf(e.l, e.hook)))
    ensures Follows(a, c, events, n + 1)
  {
    hide IndexOK, Grown, ValueFollows, GrownBy;
    forall l: nat, v | v != [] && !IsPermanent(a, l, v) ensures ValueFollows(a, c, events, n + 1, l, v) {
      PermanentStays(s, a, b, l, v);
      assert ValueFollows(a, b, events, n, l, v);
      if GrewAt(events, n, l, v) {
        SameOrFresh(s, b, c, r.value, l, v, PairOf(l, events[n].hook));
        ValueGrown(a, b, c, events, n, r.value);
      } else {
        if r.Some? {
          OtherValue(s, b, c, events[n].l, events[n].value, r.value, PairOf(events[n].l, events[n].hook), l, v);
        }
        ValueSame(a, b, c, events, n, l, v);
      }
    }
  }

  /** An addition leaves every other value alone. */
  lemma OtherValue(s: Source, b: Tables, c: Tables, l: nat, v: Value, i: nat, pair: Pair, l': nat, v': Value)
    requires IndexOK(s, b) && IndexOK(s, c) && GrownBy(b, c, i, l, v, pair) && (l', v') != (l, v) && Grown(b, c)
    ensures HasEntry(b, l', v') <==> HasEntry(c, l', v')
    ensures HasEntry(b, l', v') ==> EntryOf(c, l', v') == EntryOf(b, l', v')
  {
  }

  lemma ValueSame(a: Tables, b: Tables, c: Tables, events: seq<Event>, n: nat, l: nat, v: Value)
    requires ValueFollows(a, b, events, n, l, v) && n < |events| && events[n].Grow? && !GrewAt(events, n, l, v)
    requires HasEntry(b, l, v) <==> HasEntry(c, l, v)
    requires HasEntry(b, l, v) ==> EntryOf(c, l, v) == EntryOf(b, l, v)
    ensures ValueFollows(a, c, events, n + 1, l, v)
  {
    hide Marked, ConfirmedBelow, GrewBelow;
    NotGrownNext(a, events, n, l, v);
    NotCompletedNext(a, events, n, l, v);
  }

  lemma NotMarked(a: Tables, events: seq<Event>, n: nat, l: nat, v: Value)
    requires !StateIs(a, l, v, Pending) && !GrewBelow(events, n, l, v)
    ensures (forall pair :: !Marked(a, events, n, l, v, pair)) && !ConfirmedBelow(a, events, n, l, v)
  {
    forall j: nat, pair: Pair | j <= n ensures !Marked(a, events, j, l, v, pair) {
      GrewLater(events, j, n, l, v);
    }
  }

  lemma GrewLater(events: seq<Event>, j: nat, n: nat, l: nat, v: Value)
    requires j <= n
    ensures GrewBelow(events, j, l, v) ==> GrewBelow(events, n, l, v)
  {
  }

  lemma ValueGrown(a: Tables, b: Tables, c: Tables, events: seq<Event>, n: nat, i: nat)
    requires n < |events| && events[n].Grow?
    requires var e := events[n];
             && ValueFollows(a, b, events, n, e.l, e.value)
             && GrownBy(b, c, i, e.l, e.value, PairOf(e.l, e.hook))
             && ((HasEntry(b, e.l, e.value) && b.idx[(e.l, e.value)] == i)
                 || (!HasEntry(b, e.l, e.value) && i !in b.dynamic))
    ensures ValueFollows(a, c, events, n + 1, events[n].l, events[n].value)
  {
    hide Marked, ConfirmedBelow, GrewBelow;
    var l, v := events[n].l, events[n].value;
    GrownNext(a, events, n, l, v);
    NotCompletedNext(a, events, n, l, v);
    var e := EntryOf(c, l, v);
    if !StateIs(b, l, v, Pending) {
      NotMarked(a, events, n, l, v);
      assert e.grownBy == {PairOf(l, events[n].hook)};
    } else {
      assert e.grownBy == EntryOf(b, l, v).grownBy + {PairOf(l, events[n].hook)};
    }
    forall pair: Pair ensures pair in e.grownBy <==> Marked(a, events, n + 1, l, v, pair) {
      assert Marked(a, events, n + 1, l, v, pair) <==>
               Marked(a, events, n, l, v, pair) || pair == PairOf(l, events[n].hook);
    }
  }

  /** A completion confirms exactly what bears its pair, or its child below any parent. */
  lemma FollowsComplete(s: Source, a: Tables, b: Tables, c: Tables, events: seq<Event>, n: nat)
    requires Follows(a, b, events, n) && n < |events| && events[n].Complete?
    requires IndexOK(s, b)
    requires c == b.(dynamic := map i | i in b.dynamic ::
               ConfirmedBy(b.dynamic[i], events[n].parent, events[n].child, events[n].span))
    ensures Follows(a, c, events, n + 1)
  {
    hide IndexOK, ValueFollows;
    forall l: nat, v | v != [] && !IsPermanent(a, l, v) ensures ValueFollows(a, c, events, n + 1, l, v) {
      EntryIsNamed(s, b, l, v);
      assert ValueFollows(a, b, events, n, l, v);
      ValueCompleted(a, b, c, events, n, l, v);
    }
  }

  lemma ValueCompleted(a: Tables, b: Tables, c: Tables, events: seq<Event>, n: nat, l: nat, v: Value)
    requires ValueFollows(a, b, events, n, l, v) && n < |events| && events[n].Complete?
    requires HasEntry(b, l, v) <==> HasEntry(c, l, v)
    requires HasEntry(b, l, v) ==> EntryOf(b, l, v).value == v
    requires HasEntry(b, l, v) ==>
               EntryOf(c, l, v) == ConfirmedBy(EntryOf(b, l, v), events[n].parent, events[n].child, events[n].span)
    ensures ValueFollows(a, c, events, n + 1, l, v)
  {
    hide Marked, ConfirmedBelow, GrewBelow;
    NotGrownNext(a, events, n, l, v);
    CompletedNext(a, events, n, l, v);
  }

  // ---- what is kept in the end

  /** With nothing pending before, an addition is confirmed exactly when it is completed later. */
  lemma ConfirmedMeans(a: Tables, events: seq<Event>, l: nat, v: Value)
    requires !StateIs(a, l, v, Pending)
    ensures ConfirmedBelow(a, events, |events|, l, v) <==> GrownAndCompleted(events, l, v)
  {
    if ConfirmedBelow(a, events, |events|, l, v) {
      var j: nat, pair: Pair :| j < |events| && CompletedAt(events, j, pair, v) && Marked(a, events, j, l, v, pair);
      var i: nat :| i < j && GrewAt(events, i, l, v) && PairOf(l, events[i].hook) == pair;
    }
    if GrownAndCompleted(events, l, v) {
      var i: nat, j: nat :|
        i < j && GrewAt(events, i, l, v) && CompletedAt(events, j, PairOf(l, events[i].hook), v);
      assert Marked(a, events, j, l, v, PairOf(l, events[i].hook));
    }
  }

  lemma CompletedGrew(events: seq<Event>, l: nat, v: Value)
    ensures GrownAndCompleted(events, l, v) ==> GrewBelow(events, |events|, l, v)
  {
  }

  /** After synchronising, exactly the host values from before and the values of the context are permanent. */
  lemma SyncedPermanent(s: Source, k: Tables, a: Tables, ctx: Context, l: nat, v: Value)
    requires IndexOK(s, k) && IndexOK(s, a) && SyncedAll(ctx, k, a) && v != []
    ensures IsPermanent(a, l, v) <==> StateIs(k, l, v, Host) || v in Get(ctx, l)
    ensures StateIs(a, l, v, Pending) ==> StateIs(k, l, v, Pending)
  {
    hide IndexOK;
    EntryIsNamed(s, a, l, v);
    EntryIsNamed(s, k, l, v);
    if HasEntry(a, l, v) && a.idx[(l, v)] in k.dynamic {
      IndexHasEntry(s, k, a.idx[(l, v)]);
    }
  }

  lemma ReportedMeans(s: Source, b: Tables, ctx: Context, now: Context, l: nat, v: Value)
    requires IndexOK(s, b) && PendingOK(b) && Reported(b, ctx, now)
    ensures v in Get(now, l) <==> v in Get(ctx, l) || (StateIs(b, l, v, Pending) && EntryOf(b, l, v).confirmed)
  {
    hide IndexOK, Distinct;
    EntryIsNamed(s, b, l, v);
    if StateIs(b, l, v, Pending) && EntryOf(b, l, v).confirmed {
      assert b.idx[(l, v)] in b.pending;
    }
    if i :| && i in b.pending && i in b.dynamic && b.dynamic[i].confirmed
            && b.dynamic[i].l == l && b.dynamic[i].value == v
    {
      IndexHasEntry(s, b, i);
    }
  }

  /** What a kept parse reports: the context, and what was added, not refused, and completed afterwards. */
  ghost predicate KeptMeans(k: Tables, ctx: Context, now: Context, events: seq<Event>, l: nat, v: Value) {
    v in Get(now, l) <==>
      v in Get(ctx, l) || (v != [] && !StateIs(k, l, v, Host) && GrownAndCompleted(events, l, v))
  }

  /** What was added and not reported is gone again. */
  ghost predicate OthersRetired(k: Tables, c: Tables, now: Context, events: seq<Event>, l: nat, v: Value) {
    v != [] && !StateIs(k, l, v, Host) && v !in Get(now, l) && GrewBelow(events, |events|, l, v) ==>
      StateIs(c, l, v, Retired)
  }

  lemma KeptExactly(s: Source, k: Tables, a: Tables, b: Tables, c: Tables, ctx: Context, now: Context,
          events: seq<Event>, l: nat, v: Value)
    requires IndexOK(s, k) && IndexOK(s, a) && IndexOK(s, b) && PendingOK(b) && IndexOK(s, c)
    requires SyncedAll(ctx, k, a) && Grown(a, b) && Follows(a, b, events, |events|) && Reported(b, ctx, now)
    requires c.idx == b.idx && c.dynamic == map i | i in b.dynamic :: Decided(b.dynamic[i])
    requires !StateIs(k, l, v, Pending)
    ensures KeptMeans(k, ctx, now, events, l, v) && OthersRetired(k, c, now, events, l, v)
  {
    hide IndexOK, PendingOK, SyncedAll, Grown, ConfirmedBelow, GrownAndCompleted, GrewBelow, Reported;
    ReportedMeans(s, b, ctx, now, l, v);
    if v == [] {
      EmptyUnnamed(s, b, l);
    } else {
      SyncedPermanent(s, k, a, ctx, l, v);
      PermanentStays(s, a, b, l, v);
      ConfirmedMeans(a, events, l, v);
      CompletedGrew(events, l, v);
      if !IsPermanent(a, l, v) {
        assert ValueFollows(a, b, events, |events|, l, v);
      }
    }
  }

  lemma EmptyUnnamed(s: Source, k: Tables, l: nat)
    requires IndexOK(s, k)
    ensures !HasEntry(k, l, [])
  {
  }

  class Dynamics {
    const s: Source
    var on: set<string>
    var extra: seq<(nat, Value)>
    var ntsm: map<nat, set<nat>>
    var byNt: seq<set<nat>>
    var dynamic: map<nat, Entry>
    var idx: map<(nat, Value), nat>
    var pending: seq<nat>
    var activeGrow: Pair                  // the pair whose hook is running, or (-1, -1)

    ghost function Now(): Tables
      reads this
    {
      Tables(extra, dynamic, idx, pending, ntsm, byNt)
    }

    ghost predicate Valid()
      reads this
    {
      OK(s, on, Now())
    }

    constructor (src: Source)
      ensures Valid() && s == src && on == {} && dynamic == map[] && pending == []
    {
      s, on := src, {};
      extra, dynamic, idx, pending, activeGrow := [], map[], map[], [], (-1, -1);
      ntsm, byNt := map[], [];
      new;
      SetEnabledProductions({});
    }

    /** Rebuilds both tables for a set of enabled guards. */
    method SetEnabledProductions(guards: set<string>)
      requires IndexOK(s, Now()) && PendingOK(Now())
      modifies `on, `ntsm, `byNt
      ensures Valid() && on == guards
    {
      hide IndexOK, PendingOK, LinkedBelow, LinksOK, LinkedTo, Linked;
      ghost var before := Now();
      on := guards;
      ntsm, byNt := map[], [];
      LinkedBelowNone(s, on, Now());
      var n := 0;
      while n < |s.heads| + |extra|
        invariant 0 <= n <= |s.heads| + |extra| && on == guards
        invariant SameEntries(before, Now()) && LinkedBelow(s, on, Now(), n)
      {
        ghost var a := Now();
        Renamed(s, before, a, n);
        if n in dynamic {
          if !dynamic[n].st.Retired? {
            LinkAs(dynamic[n].l, n);
          }
        } else if Enabled(s, on, n) {
          LinkAs(s.heads[n], n);
        }
        LinkedBelowNext(s, on, a, Now(), n);
        n := n + 1;
      }
      Renamed(s, before, Now(), n);
      LinkedBelowAll(s, on, Now(), n);
    }

    method LinkAs(l: nat, p: nat)
      modifies `ntsm, `byNt
      ensures Linked(old(Now()), Now(), l, p)
    {
      ntsm := ntsm[l := Get(ntsm, l) + {p}];
      if |byNt| <= l {
        byNt := byNt + seq(l + 1 - |byNt|, _ => {});
      }
      byNt := byNt[l := byNt[l] + {p}];
    }

    /** The only place a dynamic entry gets linked. */
    method Link(i: nat)
      requires i in dynamic
      modifies `ntsm, `byNt
      ensures Linked(old(Now()), Now(), dynamic[i].l, i)
    {
      LinkAs(dynamic[i].l, i);
    }

    /** The only place a dynamic entry gets unlinked. */
    method Retire(i: nat)
      requires i in dynamic
      modifies `ntsm, `byNt, `dynamic
      ensures dynamic == old(dynamic)[i := old(dynamic)[i].(st := Retired)]
      ensures Unlinked(old(Now()), Now(), dynamic[i].l, i)
    {
      var l := dynamic[i].l;
      if l in ntsm {
        ntsm := ntsm[l := ntsm[l] - {i}];
      }
      if l < |byNt| {
        byNt := byNt[l := byNt[l] - {i}];
      }
      dynamic := dynamic[i := dynamic[i].(st := Retired)];
    }

    /** Erases every occurrence of an index from the pending list: what is left are the other entries, all of them, in
        the order they had. */
    method Unpend(i: nat)
      modifies `pending
      ensures pending == Without(old(pending), i)
      ensures ErasedFrom(pending, old(pending), i)
    {
      var kept: seq<nat> := [];
      for k := 0 to |pending|
        invariant pending == old(pending) && kept == Without(pending[..k], i)
      {
        assert pending[..k + 1] == pending[..k] + [pending[k]];
        if pending[k] != i {
          kept := kept + [pending[k]];
        }
      }
      assert pending[..|pending|] == pending;
      WithoutErases(pending, i);
      pending := kept;
    }

    /** Appends a production for a value that has none. */
    method Append(e: Entry) returns (i: nat)
      requires Valid() && e.value != [] && (e.l, e.value) !in idx && !e.st.Retired?
      modifies `extra, `dynamic, `idx, `ntsm, `byNt
      ensures i == |s.heads| + |old(extra)| && i !in old(dynamic)
      ensures extra == old(extra) + [(e.l, e.value)] && dynamic == old(dynamic)[i := e]
      ensures idx == old(idx)[(e.l, e.value) := i]
      ensures IndexOK(s, Now()) && LinksOK(s, on, Now())
    {
      hide IndexOK, LinksOK, LinkedTo, Get, Row;
      ghost var a := Now();
      extra := extra + [(e.l, e.value)];
      i := |s.heads| + |extra| - 1;
      dynamic := dynamic[i := e];
      idx := idx[(e.l, e.value) := i];
      Link(i);
      EntryAppears(s, on, a, Now(), e);
    }

    /** Adds a production while a parse runs; only a value that is not live for good can be added. */
    method Grow(l: nat, value: Value) returns (r: Option<nat>)
      requires Valid()
      modifies `extra, `dynamic, `idx, `pending, `ntsm, `byNt
      ensures Valid() && Grown(old(Now()), Now())
      ensures r.None? <==> value == [] || ((l, value) in old(idx) && Permanent(old(dynamic)[old(idx)[(l, value)]]))
      ensures r.None? ==> Now() == old(Now())
      ensures r.Some? ==>
                GrownBy(old(Now()), Now(), r.value, l, value, if activeGrow.1 != -1 then activeGrow else (-1, l))
    {
      hide OK, IndexOK, PendingOK, LinksOK, LinkedTo, Get, Row, Grown, GrownBy;
      ghost var a := Now();
      Known(s, on, a, l, value);
      if value == [] {
        GrownTrivially(a);
        return None;
      }
      var pc := if activeGrow.1 != -1 then activeGrow else (-1, l);
      if (l, value) in idx {
        var i := idx[(l, value)];
        var e := dynamic[i];
        if e.st.Host? || e.st.Committed? {
          GrownTrivially(a);
          return None;
        }
        if e.st.Pending? {
          dynamic := dynamic[i := e.(grownBy := e.grownBy + {pc})];
          EntryChanges(s, on, a, Now(), i, dynamic[i]);
          Repended(s, on, a, Now(), i, l, value, pc);
          return Some(i);
        }
        dynamic := dynamic[i := e.(st := Pending, grownBy := {pc}, confirmed := false)];
        Link(i);
        EntryChanges(s, on, a, Now(), i, dynamic[i]);
        pending := pending + [i];
        Repended(s, on, a, Now(), i, l, value, pc);
        return Some(i);
      }
      var i := Append(Entry(Pending, l, value, {pc}, false));
      pending := pending + [i];
      Newborn(s, on, a, Now(), i, l, value, pc);
      return Some(i);
    }

    /** A registered parent completed over a span: entries grown for that pair, or outside any hook, are confirmed. */
    method Confirm(parent: int, l: nat, span: Value)
      requires Valid()
      modifies `dynamic
      ensures Valid() && Grown(old(Now()), Now())
      ensures Now() == old(Now()).(dynamic :=
                map i | i in old(dynamic) :: ConfirmedBy(old(dynamic)[i], parent, l, span))
    {
      hide OK, IndexOK, PendingOK, LinksOK, LinkedTo, Grown, ConfirmedUpTo;
      ghost var a := Now();
      Opened(s, on, a);
      NoneConfirmed(a, parent, l, span);
      var j := 0;
      while j < |pending|
        invariant 0 <= j <= |pending| && ConfirmedUpTo(a, Now(), j, parent, l, span)
      {
        var i := pending[j];
        StillToConfirm(s, a, Now(), j, parent, l, span);
        ghost var b := Now();
        var e := dynamic[i];
        if e.value == span && ((parent, l) in e.grownBy || (-1, l) in e.grownBy) {
          dynamic := dynamic[i := e.(confirmed := true)];
        }
        ConfirmedNext(s, a, b, Now(), j, parent, l, span);
        j := j + 1;
      }
      ConfirmedAll(s, on, a, Now(), parent, l, span);
    }

    /** A pending entry stays for good or goes; either way its marks are cleared. */
    method Conclude(i: nat, keep: bool)
      requires IndexOK(s, Now()) && LinksOK(s, on, Now()) && i in dynamic && dynamic[i].st.Pending?
      modifies `dynamic, `ntsm, `byNt
      ensures IndexOK(s, Now()) && LinksOK(s, on, Now())
      ensures dynamic == old(dynamic)[i :=
              Entry(if keep then Committed else Retired, old(dynamic)[i].l, old(dynamic)[i].value, {}, false)]
    {
      hide IndexOK, LinksOK, LinkedTo, Get, Row;
      ghost var b := Now();
      if keep {
        dynamic := dynamic[i := dynamic[i].(st := Committed)];
      } else {
        Retire(i);
      }
      dynamic := dynamic[i := dynamic[i].(grownBy := {}, confirmed := false)];
      EntryChanges(s, on, b, Now(), i, dynamic[i]);
    }

    /** Ends a parse that is kept: confirmed values become permanent and are reported, the others go. */
    method Commit(ctx: Context) returns (now: Context, any: bool)
      requires Valid()
      modifies `dynamic, `pending, `ntsm, `byNt
      ensures Valid() && pending == [] && extra == old(extra) && idx == old(idx)
      ensures dynamic == map i | i in old(dynamic) :: Decided(old(dynamic)[i])
      ensures Reported(old(Now()), ctx, now)
      ensures any <==> exists i :: i in old(dynamic) && old(dynamic)[i].st.Pending? && old(dynamic)[i].confirmed
    {
      hide OK, IndexOK, PendingOK, LinksOK, LinkedTo, Get, Row, ReportedUpTo, AnyConfirmed, Reported, DecidedUpTo;
      ghost var a := Now();
      Opened(s, on, a);
      now, any := ctx, false;
      ReportNone(a, ctx);
      UndecidedYet(a, true);
      var j := 0;
      while j < |pending|
        invariant 0 <= j <= |pending| && pending == a.pending && DecidedUpTo(a, Now(), j, true) && IndexOK(s, Now())
        invariant LinksOK(s, on, Now())
        invariant ReportedUpTo(a, ctx, now, j) && any == AnyConfirmed(a, j)
      {
        var i := pending[j];
        ghost var b := Now();
        Undecided(s, a, b, j, true);
        if dynamic[i].confirmed {
          ReportOne(a, ctx, now, j);
          now := now[dynamic[i].l := Get(now, dynamic[i].l) + {dynamic[i].value}];
          any := true;
        } else {
          SkipOne(a, ctx, now, j);
        }
        Conclude(i, dynamic[i].confirmed);
        DecideOne(s, a, b, Now(), j, true);
        j := j + 1;
      }
      pending := [];
      DecidedAllOf(s, on, a, Now(), true);
      ReportedAll(s, a, ctx, now);
    }

    /** Ends a parse that is abandoned: whatever it grew goes. */
    method Rollback()
      requires Valid()
      modifies `dynamic, `pending, `ntsm, `byNt
      ensures Valid() && pending == [] && extra == old(extra) && idx == old(idx)
      ensures dynamic == map i | i in old(dynamic) :: Dropped(old(dynamic)[i])
    {
      hide OK, IndexOK, PendingOK, LinksOK, LinkedTo, Get, Row, ReportedUpTo, AnyConfirmed, Reported, DecidedUpTo;
      ghost var a := Now();
      Opened(s, on, a);
      UndecidedYet(a, false);
      var j := 0;
      while j < |pending|
        invariant 0 <= j <= |pending| && pending == a.pending && DecidedUpTo(a, Now(), j, false) && IndexOK(s, Now())
        invariant LinksOK(s, on, Now())
      {
        var i := pending[j];
        ghost var b := Now();
        Undecided(s, a, b, j, false);
        Conclude(i, false);
        DecideOne(s, a, b, Now(), j, false);
        j := j + 1;
      }
      pending := [];
      DecidedAllOf(s, on, a, Now(), false);
    }

    /** A host value takes over whatever entry its value has. */
    method HostOne(l: nat, v: Value)
      requires Valid() && v != []
      modifies `extra, `dynamic, `idx, `pending, `ntsm, `byNt
      ensures Valid() && Put(old(Now()), Now(), l, v, Host)
    {
      hide OK, IndexOK, PendingOK, LinksOK, LinkedTo, Get, Row, Put, Without, ErasedFrom;
      ghost var a := Now();
      Known(s, on, a, l, v);
      if (l, v) in idx {
        var i := idx[(l, v)];
        if dynamic[i].st.Host? {
          AlreadyHost(s, on, a, i);
          return;
        }
        NotPending(s, a, i);
        if dynamic[i].st.Pending? {
          Unpend(i);
        }
        var needLink := dynamic[i].st.Retired?;
        dynamic := dynamic[i := dynamic[i].(st := Host)];
        dynamic := dynamic[i := dynamic[i].(grownBy := {}, confirmed := false)];
        if needLink {
          Link(i);
        }
        Promoted(s, on, a, Now(), i, Host);
        return;
      }
      var i := Append(Entry(Host, l, v, {}, false));
      Adopted(s, on, a, Now(), Entry(Host, l, v, {}, false));
    }

    method HostValues(l: nat, values: seq<Value>)
      requires Valid() && [] !in values
      modifies `extra, `dynamic, `idx, `pending, `ntsm, `byNt
      ensures Valid() && HostedFor(old(Now()), Now(), l, Elements(values))
    {
      hide OK, IndexOK, PendingOK, LinksOK, HostedFor, Put;
      ghost var a := Now();
      Opened(s, on, a);
      HostedNone(a, l);
      assert Elements(values[..0]) == {};
      var j := 0;
      while j < |values|
        invariant 0 <= j <= |values| && Valid() && HostedFor(a, Now(), l, Elements(values[..j]))
      {
        ghost var b := Now();
        HostOne(l, values[j]);
        Opened(s, on, b);
        Opened(s, on, Now());
        HostedNext(s, a, b, Now(), l, Elements(values[..j]), values[j]);
        assert Elements(values[..j]) + {values[j]} == Elements(values[..j + 1]);
        j := j + 1;
      }
      assert values[..|values|] == values;
    }

    /** Retires the committed values of `n` that the context lacks. */
    method RetireAbsent(n: nat, target: set<Value>, ghost ctx: Context, ghost a: Tables,
            ghost gone0: set<(nat, Value)>, ghost put: set<(nat, Value)>)
      returns (ghost gone: set<(nat, Value)>)
      requires Valid() && OK(s, on, a) && SyncedPart(ctx, a, Now(), gone0, put) && target == Get(ctx, n)
      modifies `dynamic, `ntsm, `byNt
      ensures Valid() && SyncedPart(ctx, a, Now(), gone, put) && gone0 <= gone
      ensures forall x :: x in old(idx) && x.0 == n && x.1 !in target ==> x in gone
    {
      hide OK, IndexOK, PendingOK, LinksOK, LinkedTo, SyncedPart, Get, Row;
      gone := gone0;
      var rest := set x | x in idx && x.0 == n :: x.1;
      assert forall x :: x in idx && x.0 == n ==> x.1 in rest;
      ghost var all := rest;
      while rest != {}
        invariant Valid() && SyncedPart(ctx, a, Now(), gone, put) && gone0 <= gone && rest <= all
        invariant forall v :: v in rest ==> (n, v) in idx
        invariant forall v :: v in all && v !in rest && v !in target ==> (n, v) in gone
        decreases |rest|
      {
        var v :| v in rest;
        rest := rest - {v};
        ghost var b := Now();
        Known(s, on, b, n, v);
        Opened(s, on, a);
        var i := idx[(n, v)];
        if dynamic[i].st.Committed? && v !in target {
          Retire(i);
          RetiredOne(s, on, b, Now(), i);
        }
        if v !in target {
          SyncGone(s, ctx, a, b, Now(), gone, put, n, v);
          gone := gone + {(n, v)};
        }
      }
    }

    /** Gives one value of the context a permanent entry, unless it has one. */
    method SyncOne(l: nat, v: Value)
      requires Valid() && v != []
      modifies `extra, `dynamic, `idx, `pending, `ntsm, `byNt
      ensures Valid()
      ensures if (l, v) in old(idx) && old(idx)[(l, v)] in old(dynamic)
              && Permanent(old(dynamic)[old(idx)[(l, v)]]) then Now() == old(Now())
              else Put(old(Now()), Now(), l, v, Committed)
    {
      hide OK, IndexOK, PendingOK, LinksOK, LinkedTo, Get, Row, Put, Without, ErasedFrom;
      ghost var a := Now();
      Known(s, on, a, l, v);
      if (l, v) in idx {
        var i := idx[(l, v)];
        if dynamic[i].st.Host? || dynamic[i].st.Committed? {
          return;
        }
        NotPending(s, a, i);
        if dynamic[i].st.Pending? {
          Unpend(i);
        }
        dynamic := dynamic[i := dynamic[i].(st := Committed)];
        dynamic := dynamic[i := dynamic[i].(grownBy := {}, confirmed := false)];
        Link(i);
        Promoted(s, on, a, Now(), i, Committed);
        return;
      }
      var i := Append(Entry(Committed, l, v, {}, false));
      Adopted(s, on, a, Now(), Entry(Committed, l, v, {}, false));
    }

    method LinkTarget(n: nat, target: set<Value>, ghost ctx: Context, ghost a: Tables, ghost gone: set<(nat, Value)>,
            ghost put0: set<(nat, Value)>)
      returns (ghost put: set<(nat, Value)>)
      requires Valid() && OK(s, on, a) && SyncedPart(ctx, a, Now(), gone, put0) && target == Get(ctx, n)
      modifies `extra, `dynamic, `idx, `pending, `ntsm, `byNt
      ensures Valid() && SyncedPart(ctx, a, Now(), gone, put) && put0 <= put
      ensures forall v :: v in target && v != [] ==> (n, v) in put
    {
      hide OK, IndexOK, PendingOK, LinksOK, LinkedTo, SyncedPart, Get, Row, Put;
      put := put0;
      var rest := target;
      while rest != {}
        invariant Valid() && SyncedPart(ctx, a, Now(), gone, put) && put0 <= put && rest <= target
        invariant forall v :: v in target && v !in rest && v != [] ==> (n, v) in put
        decreases |rest|
      {
        var v :| v in rest;
        rest := rest - {v};
        if v != [] {
          ghost var b := Now();
          Known(s, on, b, n, v);
          SyncOne(n, v);
          Opened(s, on, a);
          Opened(s, on, Now());
          SyncPut(s, ctx, a, b, Now(), gone, put, n, v);
          put := put + {(n, v)};
        }
      }
    }

    /** The nonterminals the grammar or the context has values for. */
    method Nids(ctx: Context) returns (nids: set<nat>)
      ensures (forall x :: x in idx ==> x.0 in nids) && ctx.Keys <= nids
    {
      nids := (set x | x in idx :: x.0) + ctx.Keys;
    }

    /** Makes the committed values exactly those of a context, before a parse. */
    method Sync(ctx: Context)
      requires Valid()
      modifies `extra, `dynamic, `idx, `pending, `ntsm, `byNt
      ensures Valid() && SyncedAll(ctx, old(Now()), Now())
      ensures Settled(Now(), ctx)
      ensures old(Settled(Now(), ctx)) ==> Now() == old(Now())
    {
      hide OK, IndexOK, PendingOK, LinksOK, SyncedPart, SyncedAll, Settled, AllGone, AllPut, Get;
      ghost var a := Now();
      ghost var gone, put := {}, {};
      SyncStarts(s, on, ctx, a);
      NothingDone(a, ctx);
      var nids := Nids(ctx);
      ghost var all, done := nids, {};
      while nids != {}
        invariant Valid() && SyncedPart(ctx, a, Now(), gone, put)
        invariant AllGone(a, ctx, gone, done) && AllPut(ctx, put, done) && done + nids == all
        decreases |nids|
      {
        var n :| n in nids;
        nids := nids - {n};
        ghost var gone0, put0 := gone, put;
        IdxGrows(ctx, a, Now(), gone, put);
        gone := RetireAbsent(n, Get(ctx, n), ctx, a, gone, put);
        put := LinkTarget(n, Get(ctx, n), ctx, a, gone, put);
        OneMoreDone(a, ctx, gone0, gone, put0, put, done, n);
        done := done + {n};
      }
      SyncEnds(s, on, ctx, a, Now(), gone, put, done);
    }

    // ---- a parse, and the two ways it can end

    method Parse(events: seq<Event>)
      requires Valid()
      modifies `extra, `dynamic, `idx, `pending, `ntsm, `byNt, `activeGrow
      ensures Valid() && Grown(old(Now()), Now())
      ensures Follows(old(Now()), Now(), events, |events|)
    {
      hide OK, Grown, GrownBy, Follows, ConfirmedBy, IndexOK, PendingOK, LinksOK;
      ghost var a := Now();
      GrownTrivially(a);
      FollowsNothing(a, events);
      Opened(s, on, a);
      var j := 0;
      while j < |events|
        invariant 0 <= j <= |events| && Valid() && Grown(a, Now()) && Follows(a, Now(), events, j)
      {
        ghost var b := Now();
        Opened(s, on, b);
        match events[j] {
          case Grow(l, value, hook) =>
            activeGrow := hook;
            Known(s, on, b, l, value);
            var r := Grow(l, value);
            activeGrow := (-1, -1);
            Opened(s, on, Now());
            FollowsGrow(s, a, b, Now(), events, j, r);
          case Complete(parent, child, span) =>
            Confirm(parent, child, span);
            FollowsComplete(s, a, b, Now(), events, j);
        }
        GrownTwice(a, b, Now());
        j := j + 1;
      }
    }

    /** Abandoning a parse takes back everything it added. */
    method AbandonedParse(events: seq<Event>)
      requires Valid() && pending == []
      modifies `extra, `dynamic, `idx, `pending, `ntsm, `byNt, `activeGrow
      ensures Valid() && pending == []
      ensures forall n: nat :: Get(ntsm, n) == old(Get(ntsm, n)) && Row(byNt, n) == old(Row(byNt, n))
    {
      ghost var a := Now();
      Parse(events);
      ghost var b := Now();
      Rollback();
      RollbackLinks(s, on, a, b, Now());
    }

    /** A parse that is kept leaves a grammar settled in the context it reports, so synchronising with that context
        would change nothing. With nothing pending before, the context it reports is the one it began with and the
        values that were added, not refused, and completed later by what confirms them; other additions are gone. */
    method KeptParse(ctx: Context, events: seq<Event>) returns (now: Context)
      requires Valid()
      modifies `extra, `dynamic, `idx, `pending, `ntsm, `byNt, `activeGrow
      ensures Valid() && pending == [] && Settled(Now(), now)
      ensures forall l: nat :: Get(ctx, l) <= Get(now, l)
      ensures old(pending) == [] ==> forall l: nat, v ::
                KeptMeans(old(Now()), ctx, now, events, l, v) && OthersRetired(old(Now()), Now(), now, events, l, v)
    {
      hide OK, Grown, Settled, SyncedAll, Follows, KeptMeans, OthersRetired, IndexOK, LinksOK, Reported, StateIs;
      ghost var k := Now();
      Sync(ctx);
      ghost var a := Now();
      Parse(events);
      ghost var b := Now();
      var any;
      now, any := Commit(ctx);
      Opened(s, on, k);
      Opened(s, on, a);
      Opened(s, on, b);
      Opened(s, on, Now());
      CommitSettles(s, a, b, Now(), ctx, now);
      ReportedGrows(b, ctx, now);
      if k.pending == [] {
        forall l: nat, v
          ensures KeptMeans(k, ctx, now, events, l, v) && OthersRetired(k, Now(), now, events, l, v)
        {
          NonePending(k, l, v);
          KeptExactly(s, k, a, b, Now(), ctx, now, events, l, v);
        }
      }
    }
  }

  lemma NonePending(k: Tables, l: nat, v: Value)
    requires PendingOK(k) && k.pending == []
    ensures !StateIs(k, l, v, Pending)
  {
  }

  lemma ReportedGrows(b: Tables, ctx: Context, now: Context)
    requires Reported(b, ctx, now)
    ensures forall l: nat :: Get(ctx, l) <= Get(now, l)
  {
  }
}
