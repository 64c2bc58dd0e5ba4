/** Inheritance resolution of the model catalog: `_resolve_inherits` and `_resolve_one`. */
module Catalog {
  import opened Text
  import opened Chains

  /** An attribute value; only strings and null are looked into. */
  datatype Attribute = Null | Str(text: string) | Other(token: int)

  type Entry = map<string, Attribute>
  type Table = map<Key, Entry>

  datatype CatalogError = Cycle(key: string) | Malformed(key: string) | Unknown(key: string)

  const INHERITS := "inherits"

  /** The string the code keeps in its visiting set. */
  function Label(k: Key): string {
    k.provider + ":" + k.slug
  }

  function FirstColon(s: string): (i: nat)
    ensures i <= |s|
    ensures forall j | 0 <= j < i :: s[j] != ':'
    ensures i < |s| ==> s[i] == ':'
  {
    if s == "" then 0 else if s[0] == ':' then 0 else 1 + FirstColon(s[1..])
  }

  /** `ref.split(":", 1)`. */
  function SplitRef(ref: string): Key
    requires ':' in ref
  {
    Key(ref[..FirstColon(ref)], if FirstColon(ref) < |ref| then ref[FirstColon(ref) + 1..] else "")
  }

  function ParentOf(t: Table, k: Key): Parent
    requires k in t
  {
    if INHERITS !in t[k] || t[k][INHERITS] == Null then Root
    else if !t[k][INHERITS].Str? || ':' !in t[k][INHERITS].text then BadRef
    else
      var p := SplitRef(t[k][INHERITS].text);
      if p in t then Up(p) else Missing
  }

  /** Child fields override the parent's; the marker is dropped. */
  function Overlay(parent: Entry, child: Entry): Entry {
    (parent + child) - {INHERITS}
  }

  // ---- the code, as a function of the table it mutates -------------------------

  datatype Outcome = Outcome(result: Result<Entry, CatalogError>, table: Table)

  function Labels(t: Table): set<string> {
    set k | k in t :: Label(k)
  }

  /** `_resolve_one`: flattens the ancestors first, then stores the merged entry in place. */
  function Resolve(t: Table, k: Key, visiting: set<string>): Outcome
    requires k in t
    decreases Labels(t) - visiting
  {
    if Label(k) in visiting then Outcome(Err(Cycle(Label(k))), t)
    else
      match ParentOf(t, k)
      case Root => Outcome(Ok(t[k]), t)
      case BadRef => Outcome(Err(Malformed(Label(k))), t)
      case Missing => Outcome(Err(Unknown(Label(k))), t)
      case Up(p) =>
        assert Label(k) in Labels(t);
        var up := Resolve(t, p, visiting + {Label(k)});
        if up.result.Err? then up
        else
          var merged := Overlay(up.result.value, t[k]);
          Outcome(Ok(merged), up.table[k := merged])
  }

  /** `_resolve_inherits`, visiting the entries in the given order and stopping at the first error. */
  function ResolveAll(t: Table, order: seq<Key>): Result<Table, CatalogError>
    requires forall i | 0 <= i < |order| :: order[i] in t
    decreases |order|
  {
    if order == [] then Ok(t)
    else
      var first := Resolve(t, order[0], {});
      ResolveKeepsKeys(t, order[0], {});
      if first.result.Err? then Err(first.result.error) else ResolveAll(first.table, order[1..])
  }

  lemma {:induction false} ResolveKeepsKeys(t: Table, k: Key, visiting: set<string>)
    requires k in t
    ensures Resolve(t, k, visiting).table.Keys == t.Keys
    decreases Labels(t) - visiting
  {
    if Label(k) !in visiting && ParentOf(t, k).Up? {
      assert Label(k) in Labels(t);
      ResolveKeepsKeys(t, ParentOf(t, k).key, visiting + {Label(k)});
    }
  }

  class ModelCatalog {
    var entries: Table

    constructor (raw: Table)
      ensures entries == raw
    {
      entries := raw;
    }

    method ResolveOne(k: Key, visiting: set<string>) returns (r: Result<Entry, CatalogError>)
      requires k in entries
      modifies this
      ensures Outcome(r, entries) == Resolve(old(entries), k, visiting)
      decreases Labels(entries) - visiting
    {
      if Label(k) in visiting { return Err(Cycle(Label(k))); }
      var entry := entries[k];
      var parent := ParentOf(entries, k);
      if parent == Root { return Ok(entry); }
      if parent == BadRef { return Err(Malformed(Label(k))); }
      if parent == Missing { return Err(Unknown(Label(k))); }
      assert Label(k) in Labels(entries);
      var up := ResolveOne(parent.key, visiting + {Label(k)});
      if up.Err? { return up; }
      var merged := Overlay(up.value, entry);
      entries := entries[k := merged];
      r := Ok(merged);
    }

    method ResolveInherits(order: seq<Key>) returns (r: Result<(), CatalogError>)
      requires forall i | 0 <= i < |order| :: order[i] in entries
      modifies this
      ensures match ResolveAll(old(entries), order)
              case Ok(t) => r == Ok(()) && entries == t
              case Err(e) => r == Err(e)
      ensures ColonFree(old(entries)) && Listing(order, old(entries)) ==>
                && (r.Ok? <==> forall k | k in old(entries) :: EndsSomewhere(old(entries), k))
                && (r.Ok? ==>
                      && entries.Keys == old(entries).Keys
                      && forall k | k in old(entries) :: Inherits(old(entries), entries, k))
    {
      if ColonFree(entries) && Listing(order, entries) { ResolvesAlongMarkers(entries, order); }
      for n := 0 to |order|
        invariant entries.Keys == old(entries).Keys
        invariant ResolveAll(old(entries), order) == ResolveAll(entries, order[n..])
      {
        assert order[n..][1..] == order[n + 1..];
        ResolveKeepsKeys(entries, order[n], {});
        var one := ResolveOne(order[n], {});
        if one.Err? { return Err(one.error); }
      }
      r := Ok(());
    }
  }

  // ---- the reference: folds along the chains of the original table -----------------

  ghost function ParentsOf(t: Table): (ps: Parents)
    ensures Closed(ps) && ps.Keys == t.Keys && forall k | k in t :: ps[k] == ParentOf(t, k)
  {
    map k | k in t :: ParentOf(t, k)
  }

  /** The chain of `k` ends in an entry without a parent. */
  ghost predicate Rooted(t: Table, k: Key) {
    HasRoot(ParentsOf(t), k)
  }

  /** The fold of a chain of length `n`, root first. */
  ghost function Fold(t: Table, k: Key, n: nat): Entry
    requires Grounded(ParentsOf(t), k, n)
    decreases n
  {
    if n == 0 then t[k] else Overlay(Fold(t, ParentsOf(t)[k].key, n - 1), t[k])
  }

  /** The nearest definition of a field along the chain. */
  ghost function Nearest(t: Table, k: Key, n: nat, field: string): Option<Attribute>
    requires Grounded(ParentsOf(t), k, n)
    decreases n
  {
    if field in t[k] then Some(t[k][field])
    else if n == 0 then None
    else Nearest(t, ParentsOf(t)[k].key, n - 1, field)
  }

  /** The fold is nearest-ancestor-wins, field by field. */
  lemma {:induction false} FoldIsNearest(t: Table, k: Key, n: nat, field: string)
    requires Grounded(ParentsOf(t), k, n) && field != INHERITS
    ensures Nearest(t, k, n, field) == if field in Fold(t, k, n) then Some(Fold(t, k, n)[field]) else None
    decreases n
  {
    if n > 0 {
      FoldIsNearest(t, ParentsOf(t)[k].key, n - 1, field);
    }
  }

  /** The entry that resolution must produce for `k`. */
  ghost function Flat(t: Table, k: Key): Entry
    requires Rooted(t, k)
  {
    Fold(t, k, Depth(ParentsOf(t), k))
  }

  lemma FlatOfRoot(t: Table, k: Key)
    requires k in t && ParentOf(t, k) == Root
    ensures Rooted(t, k) && Flat(t, k) == t[k]
  {
    DepthOfRoot(ParentsOf(t), k);
  }

  lemma FlatOfChild(t: Table, k: Key)
    requires k in t && ParentOf(t, k).Up?
    ensures Rooted(t, k) <==> Rooted(t, ParentOf(t, k).key)
    ensures Rooted(t, k) ==> Flat(t, k) == Overlay(Flat(t, ParentOf(t, k).key), t[k])
  {
    DepthOfChild(ParentsOf(t), k);
  }

  // ---- the labels met on a chain -------------------------------------------------------

  /** Walking up the chain from `k` meets no label twice, nor one of `seen`. */
  ghost predicate LabelsClear(t: Table, k: Key, n: nat, seen: set<string>)
    requires Grounded(ParentsOf(t), k, n)
    decreases n
  {
    Label(k) !in seen && (n > 0 ==> LabelsClear(t, ParentsOf(t)[k].key, n - 1, seen + {Label(k)}))
  }

  /** The entry that the label of `k` names when it is read as a reference. */
  function NamedBy(k: Key): Key {
    assert Label(k)[|k.provider|] == ':';
    SplitRef(Label(k))
  }

  /** The label of `k` names one of its proper ancestors. */
  ghost predicate Aliased(t: Table, k: Key) {
    k in t && ParentOf(t, k).Up? && Meets(ParentsOf(t), ParentOf(t, k).key, NamedBy(k))
  }

  lemma FirstColonOf(p: string, rest: string)
    requires ':' !in p
    ensures FirstColon(p + ":" + rest) == |p|
  {
    var s := p + ":" + rest;
    assert s[|p|] == ':';
    forall j | 0 <= j < |p| ensures s[j] != ':' { assert s[j] == p[j]; }
  }

  /** A colon-free provider is read back from the label. */
  lemma NamedBySelf(k: Key)
    requires ':' !in k.provider
    ensures NamedBy(k) == k
  {
    FirstColonOf(k.provider, k.slug);
    assert Label(k)[..|k.provider|] == k.provider;
    assert Label(k)[|k.provider| + 1..] == k.slug;
  }

  lemma LabelsAreInjective(a: Key, b: Key)
    requires ':' !in a.provider && ':' !in b.provider
    ensures Label(a) == Label(b) <==> a == b
  {
    NamedBySelf(a);
    NamedBySelf(b);
  }

  lemma ReferencedProviderHasNoColon(ref: string)
    requires ':' in ref
    ensures ':' !in SplitRef(ref).provider
  {
  }

  lemma ParentHasNoColon(t: Table, k: Key)
    requires k in t && ParentOf(t, k).Up?
    ensures ':' !in ParentOf(t, k).key.provider
  {
    ReferencedProviderHasNoColon(t[k][INHERITS].text);
  }

  lemma LabelOfNamed(k: Key)
    ensures Label(NamedBy(k)) == Label(k) && ':' !in NamedBy(k).provider
  {
    var s := Label(k);
    assert s[|k.provider|] == ':';
    var i := FirstColon(s);
    assert i < |s|;
    assert s == s[..i] + ":" + s[i + 1..];
    ReferencedProviderHasNoColon(s);
  }

  /** Every label in `seen` belongs to a rooted entry with a chain longer than `n`. */
  ghost predicate SeenAbove(t: Table, n: nat, seen: set<string>) {
    forall s | s in seen :: SeenAt(t, n, s)
  }

  ghost predicate SeenAt(t: Table, n: nat, s: string) {
    exists x, d: nat :: d > n && Label(x) == s && ':' !in x.provider && Grounded(ParentsOf(t), x, d)
  }

  lemma NotSeen(t: Table, k: Key, n: nat, seen: set<string>)
    requires Grounded(ParentsOf(t), k, n) && ':' !in k.provider && SeenAbove(t, n, seen)
    ensures Label(k) !in seen
    ensures n > 0 ==> SeenAbove(t, n - 1, seen + {Label(k)})
  {
    if Label(k) in seen {
      assert SeenAt(t, n, Label(k));
      var x, d: nat :| d > n && Label(x) == Label(k) && ':' !in x.provider && Grounded(ParentsOf(t), x, d);
      LabelsAreInjective(x, k);
      DepthIsUnique(ParentsOf(t), k, n, d);
    }
    if n > 0 {
      forall s | s in seen + {Label(k)} ensures SeenAt(t, n - 1, s) {
        if s in seen { assert SeenAt(t, n, s); }
      }
    }
  }

  /** On a chain of colon-free providers, only the extra label can clash. */
  lemma {:induction false} ClearUnlessMet(t: Table, k: Key, n: nat, seen: set<string>, target: Key)
    requires Grounded(ParentsOf(t), k, n) && ':' !in k.provider && ':' !in target.provider
    requires SeenAbove(t, n, seen)
    ensures LabelsClear(t, k, n, seen + {Label(target)}) <==> !Meets(ParentsOf(t), k, target)
    decreases n
  {
    NotSeen(t, k, n, seen);
    MeetsStep(ParentsOf(t), k, target);
    LabelsAreInjective(k, target);
    if n > 0 {
      ParentHasNoColon(t, k);
      ClearUnlessMet(t, ParentOf(t, k).key, n - 1, seen + {Label(k)}, target);
      assert seen + {Label(target)} + {Label(k)} == seen + {Label(k)} + {Label(target)};
    }
  }

  /** Labels clash on a rooted chain exactly when the start's label names one of its own ancestors. */
  lemma ClearUnlessAliased(t: Table, k: Key, n: nat)
    requires Grounded(ParentsOf(t), k, n)
    ensures LabelsClear(t, k, n, {}) <==> !Aliased(t, k)
  {
    if n > 0 {
      ParentHasNoColon(t, k);
      LabelOfNamed(k);
      ClearUnlessMet(t, ParentOf(t, k).key, n - 1, {}, NamedBy(k));
      assert {} + {Label(k)} == {Label(k)};
    }
  }

  /** A colon-free provider never aliases a rooted entry. */
  lemma ColonFreeIsNotAliased(t: Table, k: Key)
    requires k in t && Rooted(t, k) && ':' !in k.provider
    ensures !Aliased(t, k)
  {
    NamedBySelf(k);
    if ParentOf(t, k).Up? {
      RootedNeverMeetsItself(ParentsOf(t), k);
    }
  }

  // ---- in-place resolution is the fold --------------------------------------------------

  /** `t` is the original table with some entries already flattened. */
  ghost predicate PartlyFlat(original: Table, t: Table) {
    && t.Keys == original.Keys
    && forall k | k in t :: t[k] == original[k] || Flattened(original, t, k)
  }

  ghost predicate Flattened(original: Table, t: Table, k: Key)
    requires k in t
  {
    && k in original && ParentOf(original, k).Up?
    && Rooted(original, k) && t[k] == Flat(original, k)
  }

  lemma FlattenedIsRoot(original: Table, t: Table, k: Key)
    requires k in t && Flattened(original, t, k)
    ensures ParentOf(t, k) == Root
  {
    FlatOfChild(original, k);
  }

  lemma ParentInPartlyFlat(original: Table, t: Table, k: Key)
    requires PartlyFlat(original, t) && k in t
    ensures ParentOf(t, k) == Root ==> Rooted(original, k) && t[k] == Flat(original, k)
    ensures ParentOf(t, k) != Root ==> t[k] == original[k] && ParentOf(original, k) == ParentOf(t, k)
  {
    if Flattened(original, t, k) {
      FlattenedIsRoot(original, t, k);
    } else {
      assert ParentOf(original, k) == ParentOf(t, k);
      if ParentOf(t, k) == Root { FlatOfRoot(original, k); }
    }
  }

  lemma StoreFlat(original: Table, t: Table, k: Key, e: Entry)
    requires PartlyFlat(original, t) && k in t && ParentOf(original, k).Up?
    requires Rooted(original, k) && e == Flat(original, k)
    ensures PartlyFlat(original, t[k := e])
  {
    var later := t[k := e];
    forall x | x in later ensures later[x] == original[x] || Flattened(original, later, x) {
      if x != k && t[x] != original[x] { assert Flattened(original, t, x); }
    }
  }

  /** From any partly flattened table: success yields the fold, and only flattens further. */
  lemma {:induction false} ResolveIsFold(original: Table, t: Table, k: Key, visiting: set<string>)
    requires PartlyFlat(original, t) && k in t
    ensures var o := Resolve(t, k, visiting);
            && PartlyFlat(original, o.table) && k in o.table
            && (o.result.Ok? ==> Rooted(original, k) && o.result.value == Flat(original, k) == o.table[k])
    decreases Labels(t) - visiting
  {
    ResolveKeepsKeys(t, k, visiting);
    ParentInPartlyFlat(original, t, k);
    if Label(k) !in visiting && ParentOf(t, k).Up? {
      var p := ParentOf(t, k).key;
      assert Label(k) in Labels(t);
      ResolveIsFold(original, t, p, visiting + {Label(k)});
      var up := Resolve(t, p, visiting + {Label(k)});
      ResolveKeepsKeys(t, p, visiting + {Label(k)});
      if up.result.Ok? {
        FlatOfChild(original, k);
        StoreFlat(original, up.table, k, Overlay(up.result.value, t[k]));
      }
    }
  }

  /** From any partly flattened table, a rooted chain with clear labels resolves. */
  lemma {:induction false} ResolveSucceeds(original: Table, t: Table, k: Key, n: nat, visiting: set<string>)
    requires PartlyFlat(original, t) && k in t
    requires Grounded(ParentsOf(original), k, n) && LabelsClear(original, k, n, visiting)
    ensures Resolve(t, k, visiting).result.Ok?
    decreases n
  {
    ParentInPartlyFlat(original, t, k);
    if ParentOf(t, k) != Root {
      ResolveSucceeds(original, t, ParentOf(t, k).key, n - 1, visiting + {Label(k)});
    }
  }

  /** On an untouched table the same condition is also necessary. */
  lemma {:induction false} ResolveOnlyIf(t: Table, k: Key, visiting: set<string>) returns (n: nat)
    requires k in t && Resolve(t, k, visiting).result.Ok?
    ensures Grounded(ParentsOf(t), k, n) && LabelsClear(t, k, n, visiting)
    decreases Labels(t) - visiting
  {
    if ParentOf(t, k).Up? {
      assert Label(k) in Labels(t);
      var p := ParentOf(t, k).key;
      assert Resolve(t, p, visiting + {Label(k)}).result.Ok?;
      var m := ResolveOnlyIf(t, p, visiting + {Label(k)});
      n := m + 1;
      assert ParentsOf(t)[k] == Up(p);
      assert Grounded(ParentsOf(t), k, n);
    } else {
      n := 0;
      assert ParentsOf(t)[k] == Root;
    }
  }

  // ---- the main theorem -------------------------------------------------------------------

  ghost predicate AllRooted(t: Table) {
    forall k | k in t :: Rooted(t, k)
  }

  ghost predicate NoAlias(t: Table) {
    forall k | k in t && Rooted(t, k) :: !Aliased(t, k)
  }

  ghost predicate Covers(order: seq<Key>, t: Table) {
    forall k :: k in order <==> k in t
  }

  ghost predicate FullyFlat(original: Table, t: Table) {
    t.Keys == original.Keys && forall k | k in t :: FlatIn(original, t, k)
  }

  /** `k` holds its fold. */
  ghost predicate FlatIn(original: Table, t: Table, k: Key) {
    k in t && Rooted(original, k) && t[k] == Flat(original, k)
  }

  lemma {:induction false} FlatStaysOne(original: Table, t: Table, x: Key, visiting: set<string>, k: Key)
    requires PartlyFlat(original, t) && x in t && FlatIn(original, t, k)
    ensures FlatIn(original, Resolve(t, x, visiting).table, k)
    decreases Labels(t) - visiting
  {
    ResolveIsFold(original, t, x, visiting);
    if Label(x) !in visiting && ParentOf(t, x).Up? {
      assert Label(x) in Labels(t);
      FlatStaysOne(original, t, ParentOf(t, x).key, visiting + {Label(x)}, k);
    }
  }

  /** An entry already equal to its fold is never changed again. */
  lemma {:induction false} FlatStays(original: Table, t: Table, order: seq<Key>, k: Key)
    requires PartlyFlat(original, t) && FlatIn(original, t, k)
    requires forall i | 0 <= i < |order| :: order[i] in t
    requires ResolveAll(t, order).Ok?
    ensures FlatIn(original, ResolveAll(t, order).value, k)
    decreases |order|
  {
    if order != [] {
      FlatStaysOne(original, t, order[0], {}, k);
      ResolveIsFold(original, t, order[0], {});
      ResolveKeepsKeys(t, order[0], {});
      FlatStays(original, Resolve(t, order[0], {}).table, order[1..], k);
    }
  }

  lemma {:induction false} ResolveAllFlattens(original: Table, t: Table, order: seq<Key>)
    requires PartlyFlat(original, t) && forall i | 0 <= i < |order| :: order[i] in t
    requires ResolveAll(t, order).Ok?
    ensures ResolveAll(t, order).value.Keys == original.Keys
    ensures forall i | 0 <= i < |order| :: FlatIn(original, ResolveAll(t, order).value, order[i])
    decreases |order|
  {
    if order != [] {
      var k := order[0];
      ResolveIsFold(original, t, k, {});
      ResolveKeepsKeys(t, k, {});
      var later := Resolve(t, k, {}).table;
      ResolveAllFlattens(original, later, order[1..]);
      FlatStays(original, later, order[1..], k);
      forall i | 0 <= i < |order| ensures FlatIn(original, ResolveAll(t, order).value, order[i]) {
        if i > 0 { assert order[1..][i - 1] == order[i]; }
      }
    }
  }

  lemma {:induction false} ResolveAllSucceeds(original: Table, t: Table, order: seq<Key>)
    requires PartlyFlat(original, t) && forall i | 0 <= i < |order| :: order[i] in t
    requires forall i | 0 <= i < |order| :: Rooted(original, order[i]) && !Aliased(original, order[i])
    ensures ResolveAll(t, order).Ok?
    decreases |order|
  {
    if order != [] {
      var k := order[0];
      var n := Depth(ParentsOf(original), k);
      ClearUnlessAliased(original, k, n);
      ResolveSucceeds(original, t, k, n, {});
      ResolveIsFold(original, t, k, {});
      ResolveKeepsKeys(t, k, {});
      ResolveAllSucceeds(original, Resolve(t, k, {}).table, order[1..]);
    }
  }

  /**
   * Whatever the iteration order, resolution succeeds exactly when every chain is rooted, and then
   * replaces every entry by the fold of its original chain; for catalogs without aliasing labels.
   */
  lemma {:induction false} ResolutionIsChainFold(t: Table, order: seq<Key>)
    requires Covers(order, t) && NoAlias(t)
    requires forall i | 0 <= i < |order| :: order[i] in t
    ensures ResolveAll(t, order).Ok? <==> AllRooted(t)
    ensures ResolveAll(t, order).Ok? ==> FullyFlat(t, ResolveAll(t, order).value)
  {
    if ResolveAll(t, order).Ok? {
      ResolveAllFlattens(t, t, order);
      forall k | k in t ensures FlatIn(t, ResolveAll(t, order).value, k) {
        assert k in order;
        var i :| 0 <= i < |order| && order[i] == k;
        assert FlatIn(t, ResolveAll(t, order).value, order[i]);
      }
    } else if AllRooted(t) {
      ResolveAllSucceeds(t, t, order);
    }
  }

  /** In particular when no provider name contains a colon. */
  lemma ColonFreeHasNoAlias(t: Table)
    requires forall k | k in t :: ':' !in k.provider
    ensures NoAlias(t)
  {
    forall k | k in t && Rooted(t, k) ensures !Aliased(t, k) {
      ColonFreeIsNotAliased(t, k);
    }
  }

  /** On a rooted chain nothing but the visiting set can fail. */
  lemma {:induction false} RootedFailsAsCycle(t: Table, k: Key, n: nat, visiting: set<string>)
    requires k in t && Grounded(ParentsOf(t), k, n)
    ensures Resolve(t, k, visiting).result.Err? ==> Resolve(t, k, visiting).result.error.Cycle?
    decreases n
  {
    if n > 0 && Label(k) !in visiting {
      RootedFailsAsCycle(t, ParentOf(t, k).key, n - 1, visiting + {Label(k)});
    }
  }

  /** A rooted but aliased entry is reported as a cycle, by every order that starts with it. */
  lemma AliasIsReportedAsCycle(t: Table, k: Key, order: seq<Key>)
    requires k in t && Rooted(t, k) && Aliased(t, k)
    requires order != [] && order[0] == k && forall i | 0 <= i < |order| :: order[i] in t
    ensures ResolveAll(t, order).Err? && ResolveAll(t, order).error.Cycle?
  {
    AliasFails(t, k);
    RootedFailsAsCycle(t, k, Depth(ParentsOf(t), k), {});
  }

  lemma AliasFails(t: Table, k: Key)
    requires k in t && Aliased(t, k)
    ensures Resolve(t, k, {}).result.Err?
  {
    if Resolve(t, k, {}).result.Ok? {
      var n := ResolveOnlyIf(t, k, {});
      ClearUnlessAliased(t, k, n);
    }
  }

  /**
   * The condition is exact: among catalogs whose chains are all rooted, those that resolve in
   * every order are the ones without aliasing labels.
   */
  lemma {:induction false} EveryOrderResolvesIff(t: Table)
    requires AllRooted(t)
    ensures EveryOrderResolves(t) <==> NoAlias(t)
  {
    if NoAlias(t) {
      forall order: seq<Key> | Listing(order, t) ensures ResolveAll(t, order).Ok? {
        ResolutionIsChainFold(t, order);
      }
    } else {
      var k :| k in t && Rooted(t, k) && Aliased(t, k);
      var order := OrderStartingWith(t, k);
      AliasIsReportedAsCycle(t, k, order);
    }
  }

  ghost predicate EveryOrderResolves(t: Table) {
    forall order: seq<Key> | Listing(order, t) :: ResolveAll(t, order).Ok?
  }

  lemma OrderStartingWith(t: Table, k: Key) returns (order: seq<Key>)
    requires k in t
    ensures Listing(order, t) && order != [] && order[0] == k
  {
    var others := KeysAsSeq(t.Keys);
    order := [k] + others;
  }

  ghost predicate Listing(order: seq<Key>, t: Table) {
    Covers(order, t) && forall i | 0 <= i < |order| :: order[i] in t
  }

  lemma {:induction false} KeysAsSeq(keys: set<Key>) returns (s: seq<Key>)
    ensures forall k :: k in s <==> k in keys
    ensures forall i | 0 <= i < |s| :: s[i] in keys
    decreases |keys|
  {
    if keys == {} {
      s := [];
    } else {
      var k := Pick(keys);
      var rest := KeysAsSeq(keys - {k});
      s := [k] + rest;
    }
  }

  /** What a rooted chain is, in the terms of the code's three errors. */
  lemma RootedUnlessBroken(t: Table, k: Key)
    requires k in t
    ensures Rooted(t, k) <==> !EndsBadly(ParentsOf(t), k) && !Cyclic(ParentsOf(t), k)
  {
    RootedIff(ParentsOf(t), k);
  }

  // ---- in terms of the markers -----------------------------------------------------------------

  /** The entry inherits from nobody: it has no marker, or a null one. */
  predicate Unmarked(e: Entry) {
    "inherits" !in e || e["inherits"] == Null
  }

  /** The marker of the entry reads `provider:slug` for the key `p`, cut at its first colon. */
  predicate Names(e: Entry, p: Key) {
    "inherits" in e && ':' !in p.provider && e["inherits"] == Str(p.provider + ":" + p.slug)
  }

  lemma SplitRefIs(p: Key)
    requires ':' !in p.provider
    ensures var ref := p.provider + ":" + p.slug;
            ':' in ref && SplitRef(ref) == p
  {
    NamedBySelf(p);
  }

  lemma ReferenceNames(ref: string) returns (p: Key)
    requires ':' in ref
    ensures ':' !in p.provider && ref == p.provider + ":" + p.slug && p == SplitRef(ref)
  {
    p := SplitRef(ref);
  }

  /** Which parent a marker gives, whatever provider the entry itself belongs to. */
  lemma ParentIs(t: Table, k: Key, p: Key)
    requires k in t
    ensures ParentOf(t, k) == Root <==> Unmarked(t[k])
    ensures ParentOf(t, k) == BadRef
       <==> !Unmarked(t[k]) && (!t[k]["inherits"].Str? || ':' !in t[k]["inherits"].text)
    ensures Names(t[k], p) ==> ParentOf(t, k) == if p in t then Up(p) else Missing
    ensures ParentOf(t, k) == Up(p) ==> Names(t[k], p) && p in t
  {
    if Names(t[k], p) { SplitRefIs(p); }
    if ParentOf(t, k) == Up(p) { var q := ReferenceNames(t[k]["inherits"].text); }
  }

  /** The markers lead from `k` in `n` steps to an entry without one. */
  ghost predicate MarkersEnd(t: Table, k: Key, n: nat)
    decreases n
  {
    k in t && if n == 0 then Unmarked(t[k]) else exists p :: Names(t[k], p) && MarkersEnd(t, p, n - 1)
  }

  lemma MarkerLeadsUp(t: Table, k: Key, p: Key)
    requires k in t && p in t
    ensures Names(t[k], p) <==> ParentOf(t, k) == Up(p)
  {
    ParentIs(t, k, p);
  }

  lemma UnmarkedIsRoot(t: Table, k: Key)
    requires k in t
    ensures Unmarked(t[k]) <==> ParentOf(t, k) == Root
  {
    ParentIs(t, k, k);
  }

  lemma {:induction false} MarkersGround(t: Table, k: Key, n: nat)
    requires MarkersEnd(t, k, n)
    ensures Grounded(ParentsOf(t), k, n)
    decreases n
  {
    if n == 0 {
      UnmarkedIsRoot(t, k);
    } else {
      var p :| Names(t[k], p) && MarkersEnd(t, p, n - 1);
      MarkersGround(t, p, n - 1);
      MarkerLeadsUp(t, k, p);
    }
  }

  lemma {:induction false} GroundMarkers(t: Table, k: Key, n: nat)
    requires Grounded(ParentsOf(t), k, n)
    ensures MarkersEnd(t, k, n)
    decreases n
  {
    if n == 0 {
      UnmarkedIsRoot(t, k);
    } else {
      var p := ParentOf(t, k).key;
      GroundMarkers(t, p, n - 1);
      MarkerLeadsUp(t, k, p);
      MarkersStep(t, k, p, n);
    }
  }

  lemma MarkersStep(t: Table, k: Key, p: Key, n: nat)
    requires k in t && 0 < n && Names(t[k], p) && MarkersEnd(t, p, n - 1)
    ensures MarkersEnd(t, k, n)
  {
  }

  ghost predicate EndsSomewhere(t: Table, k: Key) {
    exists n: nat :: MarkersEnd(t, k, n)
  }

  lemma EndsIffRooted(t: Table, k: Key)
    ensures EndsSomewhere(t, k) <==> Rooted(t, k)
  {
    if n: nat :| MarkersEnd(t, k, n) { MarkersGround(t, k, n); }
    if Rooted(t, k) { GroundMarkers(t, k, Depth(ParentsOf(t), k)); }
  }

  ghost predicate ColonFree(t: Table) {
    forall k | k in t :: ':' !in k.provider
  }

  /** A resolved entry: its own fields, else the resolved fields of the entry it names, and no marker. */
  ghost predicate Inherits(t: Table, after: Table, k: Key)
    requires k in t && k in after
  {
    if Unmarked(t[k]) then after[k] == t[k]
    else exists p :: Names(t[k], p) && p in after && Inherited(t[k], after[p], after[k])
  }

  predicate Inherited(own: Entry, parent: Entry, result: Entry) {
    && "inherits" !in result
    && (forall field | field in own && field != "inherits" :: field in result && result[field] == own[field])
    && (forall field | field in parent && field !in own && field != "inherits" ::
          field in result && result[field] == parent[field])
    && (forall field | field in result :: field in own || field in parent)
  }

  lemma FlatInherits(t: Table, after: Table, k: Key)
    requires k in t && FullyFlat(t, after)
    ensures Inherits(t, after, k)
  {
    assert FlatIn(t, after, k);
    if ParentOf(t, k) == Root {
      ParentIs(t, k, k);
      FlatOfRoot(t, k);
    } else {
      var p := ParentOf(t, k).key;
      ParentIs(t, k, p);
      FlatOfChild(t, k);
      assert FlatIn(t, after, p);
      assert Inherited(t[k], after[p], after[k]);
    }
  }

  /**
   * Without colons in provider names: in every iteration order resolution succeeds exactly when the markers of
   * every entry lead to an unmarked one, and then every entry has inherited along its markers.
   */
  lemma ResolvesAlongMarkers(t: Table, order: seq<Key>)
    requires ColonFree(t) && Listing(order, t)
    ensures ResolveAll(t, order).Ok? <==> forall k | k in t :: EndsSomewhere(t, k)
    ensures ResolveAll(t, order).Ok? ==>
              var after := ResolveAll(t, order).value;
              after.Keys == t.Keys && forall k | k in t :: Inherits(t, after, k)
  {
    ColonFreeHasNoAlias(t);
    ResolutionIsChainFold(t, order);
    forall k | k in t ensures EndsSomewhere(t, k) <==> Rooted(t, k) {
      EndsIffRooted(t, k);
    }
    if ResolveAll(t, order).Ok? {
      forall k | k in t ensures Inherits(t, ResolveAll(t, order).value, k) {
        FlatInherits(t, ResolveAll(t, order).value, k);
      }
    }
  }
}
