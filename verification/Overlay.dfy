/** Layered YAML configuration: deep merge, leaf writes and deletes, and the two lookup orders. */
module Overlay {
  import opened Text

  /** A YAML value; `Scalar` stands for numbers, booleans and dates, token 0 for the falsy ones. */
  datatype Yaml = Null | Str(text: string) | Scalar(token: int) | Items(items: seq<Yaml>) | Mapping(m: map<string, Yaml>)

  const EMPTY := Mapping(map[])

  type Path = seq<string>

  // ---- lookup and merge -------------------------------------------------------------

  /** The value at a path, when every step is a mapping that has the key. */
  function Lookup(t: Yaml, p: Path): Option<Yaml> {
    if p == [] then Some(t)
    else if t.Mapping? && p[0] in t.m then Lookup(t.m[p[0]], p[1..])
    else None
  }

  /** `_deep_merge`: mappings merge key by key, anything else is replaced by the overlay. */
  function Merge(base: Yaml, overlay: Yaml): (r: Yaml)
    requires base.Mapping? && overlay.Mapping?
    ensures r.Mapping? && r.m.Keys == base.m.Keys + overlay.m.Keys
    decreases overlay, 1
  {
    Mapping(map k | k in base.m.Keys + overlay.m.Keys ::
      if k !in overlay.m then base.m[k]
      else MergeEntry(if k in base.m then Some(base.m[k]) else None, overlay.m[k]))
  }

  /** What the overlay's value for a key becomes. */
  function MergeEntry(base: Option<Yaml>, over: Yaml): Yaml
    decreases over, 2
  {
    if base.Some? && base.value.Mapping? && over.Mapping? then Merge(base.value, over) else over
  }

  /** `merged` after every key outside `todo` has been handled. */
  ghost predicate MergedExcept(base: Yaml, overlay: Yaml, merged: map<string, Yaml>, todo: set<string>)
    requires base.Mapping? && overlay.Mapping?
  {
    && merged.Keys == base.m.Keys + (overlay.m.Keys - todo)
    && forall k | k in merged ::
         merged[k] == if k in overlay.m && k !in todo
                      then MergeEntry(if k in base.m then Some(base.m[k]) else None, overlay.m[k])
                      else base.m[k]
  }

  method DeepMerge(base: Yaml, overlay: Yaml) returns (r: Yaml)
    requires base.Mapping? && overlay.Mapping?
    ensures r == Merge(base, overlay)
    decreases overlay
  {
    var merged := base.m;
    var todo := overlay.m.Keys;
    while todo != {}
      invariant todo <= overlay.m.Keys && MergedExcept(base, overlay, merged, todo)
      decreases |todo|
    {
      var key :| key in todo;
      var value := overlay.m[key];
      if key in merged && merged[key].Mapping? && value.Mapping? {
        value := DeepMerge(merged[key], value);
      }
      assert value == MergeEntry(if key in base.m then Some(base.m[key]) else None, overlay.m[key]);
      MergedOneMore(base, overlay, merged, todo, key, value);
      merged := merged[key := value];
      todo := todo - {key};
    }
    MergedAll(base, overlay, merged);
    r := Mapping(merged);
  }

  lemma MergedAll(base: Yaml, overlay: Yaml, merged: map<string, Yaml>)
    requires base.Mapping? && overlay.Mapping? && MergedExcept(base, overlay, merged, {})
    ensures Mapping(merged) == Merge(base, overlay)
  {
    assert merged == Merge(base, overlay).m;
  }

  lemma MergedOneMore(base: Yaml, overlay: Yaml, merged: map<string, Yaml>, todo: set<string>, key: string, value: Yaml)
    requires base.Mapping? && overlay.Mapping? && MergedExcept(base, overlay, merged, todo)
    requires key in todo && todo <= overlay.m.Keys
    requires value == MergeEntry(if key in base.m then Some(base.m[key]) else None, overlay.m[key])
    ensures MergedExcept(base, overlay, merged[key := value], todo - {key})
  {
  }

  /** A proper ancestor of `p` holds something that is not a mapping. */
  ghost predicate Shadowed(t: Yaml, p: Path) {
    exists k | 0 < k < |p| :: ShadowAt(t, p[..k])
  }

  predicate ShadowAt(t: Yaml, q: Path) {
    Lookup(t, q).Some? && !Lookup(t, q).value.Mapping?
  }

  lemma ShadowedStep(t: Yaml, p: Path)
    requires t.Mapping? && |p| >= 1
    ensures Shadowed(t, p) <==> |p| >= 2 && p[0] in t.m && (!t.m[p[0]].Mapping? || Shadowed(t.m[p[0]], p[1..]))
  {
    if |p| >= 2 && p[0] in t.m {
      var c := t.m[p[0]];
      assert p[..1][1..] == [] && Lookup(t, p[..1]) == Some(c);
      forall k | 0 < k < |p| - 1 ensures Lookup(t, p[..k + 1]) == Lookup(c, p[1..][..k]) {
        assert p[..k + 1][1..] == p[1..][..k];
      }
      if Shadowed(t, p) && c.Mapping? {
        var k :| 0 < k < |p| && ShadowAt(t, p[..k]);
        assert ShadowAt(c, p[1..][..k - 1]);
      }
      if !c.Mapping? { assert ShadowAt(t, p[..1]); }
      if Shadowed(c, p[1..]) {
        var k :| 0 < k < |p[1..]| && ShadowAt(c, p[1..][..k]);
        assert ShadowAt(t, p[..k + 1]);
      }
    } else {
      forall k | 0 < k < |p| ensures !ShadowAt(t, p[..k]) { assert p[..k][0] == p[0]; }
    }
  }

  /** Every lookup in a merge, in terms of lookups in its two layers. */
  function MergedLookup(base: Option<Yaml>, overlay: Option<Yaml>, shadowed: bool): Option<Yaml> {
    match overlay
    case Some(x) =>
      if x.Mapping? && base.Some? && base.value.Mapping? then Some(Merge(base.value, x)) else Some(x)
    case None => if shadowed then None else base
  }

  lemma {:induction false} LookupInMerge(base: Yaml, overlay: Yaml, p: Path)
    requires base.Mapping? && overlay.Mapping?
    ensures Lookup(Merge(base, overlay), p)
         == MergedLookup(Lookup(base, p), Lookup(overlay, p), Shadowed(overlay, p))
    decreases |p|
  {
    if p != [] {
      ShadowedStep(overlay, p);
      var k := p[0];
      var merged := Merge(base, overlay);
      if k in base.m && k in overlay.m && base.m[k].Mapping? && overlay.m[k].Mapping? {
        LookupInMerge(base.m[k], overlay.m[k], p[1..]);
      } else if k in overlay.m && p[1..] != [] && !overlay.m[k].Mapping? {
        assert Lookup(overlay.m[k], p[1..]) == None;
      } else if k in overlay.m && p[1..] != [] {
        NothingBelow(if k in base.m then base.m[k] else Null, p[1..]);
      }
      ShadowNeedsDepth(overlay, p);
    }
  }

  lemma NothingBelow(t: Yaml, p: Path)
    ensures p != [] && !t.Mapping? ==> Lookup(t, p) == None
  {
  }

  lemma {:induction false} ShadowNeedsDepth(t: Yaml, p: Path)
    ensures Shadowed(t, p) ==> Lookup(t, p) == None
    decreases |p|
  {
    if |p| >= 1 && t.Mapping? {
      ShadowedStep(t, p);
      if p[0] in t.m { ShadowNeedsDepth(t.m[p[0]], p[1..]); }
    } else if |p| >= 1 {
      forall k | 0 < k < |p| ensures !ShadowAt(t, p[..k]) {}
    }
  }

  lemma MergeAt(base: Yaml, overlay: Yaml, k: string)
    requires base.Mapping? && overlay.Mapping? && k in overlay.m
    ensures Merge(base, overlay).m[k]
         == if k in base.m && base.m[k].Mapping? && overlay.m[k].Mapping? then Merge(base.m[k], overlay.m[k])
            else overlay.m[k]
  {
    var over := if k in base.m then Some(base.m[k]) else None;
    assert Merge(base, overlay).m[k] == MergeEntry(over, overlay.m[k]);
  }

  /** Merging the same overlay twice changes nothing more. */
  lemma {:induction false} MergeIsIdempotent(base: Yaml, overlay: Yaml)
    requires base.Mapping? && overlay.Mapping?
    ensures Merge(Merge(base, overlay), overlay) == Merge(base, overlay)
    decreases overlay
  {
    var once := Merge(base, overlay);
    forall k | k in once.m ensures Merge(once, overlay).m[k] == once.m[k] {
      if k in overlay.m {
        MergeAt(base, overlay, k);
        MergeAt(once, overlay, k);
        if overlay.m[k].Mapping? {
          if k in base.m && base.m[k].Mapping? {
            MergeIsIdempotent(base.m[k], overlay.m[k]);
          } else {
            MergeWithItself(overlay.m[k]);
          }
        }
      }
    }
    assert Merge(once, overlay).m == once.m;
  }

  lemma {:induction false} MergeWithItself(t: Yaml)
    requires t.Mapping?
    ensures Merge(t, t) == t
    decreases t
  {
    forall k | k in t.m ensures Merge(t, t).m[k] == t.m[k] {
      if t.m[k].Mapping? { MergeWithItself(t.m[k]); }
    }
    assert Merge(t, t).m == t.m;
  }

  // ---- writing and deleting one leaf ----------------------------------------------------

  datatype PathError = EmptyPath | NotAMapping

  /** The cursor walk of `write_yaml_value`: missing and null ancestors become mappings. */
  function Write(t: Yaml, p: Path, v: Yaml): Result<Yaml, PathError>
    requires p != []
    decreases |p|
  {
    if !t.Mapping? then Err(NotAMapping)
    else if |p| == 1 then Ok(Mapping(t.m[p[0] := v]))
    else
      var child := if p[0] in t.m && t.m[p[0]] != Null then t.m[p[0]] else EMPTY;
      match Write(child, p[1..], v)
      case Err(e) => Err(e)
      case Ok(c) => Ok(Mapping(t.m[p[0] := c]))
  }

  predicate IsInfix(needle: string, s: string) {
    StartsWith(s, needle) || (s != "" && IsInfix(needle, s[1..]))
  }

  /** The `in` test of the delete walk, which strings and lists also answer. */
  predicate Contains(t: Yaml, key: string) {
    match t
    case Null => false
    case Str(text) => IsInfix(key, text)
    case Scalar(_) => false
    case Items(items) => Str(key) in items
    case Mapping(m) => key in m
  }

  /** `delete_yaml_value`: None when nothing was there; an error when the walk indexes a non-mapping. */
  function Delete(t: Yaml, p: Path): Result<Option<Yaml>, PathError>
    requires p != []
    decreases |p|
  {
    if !Contains(t, p[0]) then Ok(None)
    else if !t.Mapping? then Err(NotAMapping)
    else if |p| == 1 then Ok(Some(Mapping(t.m - {p[0]})))
    else
      match Delete(t.m[p[0]], p[1..])
      case Err(e) => Err(e)
      case Ok(None) => Ok(None)
      case Ok(Some(c)) => Ok(Some(Mapping(t.m[p[0] := c])))
  }

  predicate Related(p: Path, q: Path) {
    p <= q || q <= p
  }

  lemma RelatedStep(p: Path, q: Path)
    requires p != [] && q != [] && p[0] == q[0]
    ensures Related(p, q) <==> Related(p[1..], q[1..])
  {
    assert p == [p[0]] + p[1..] && q == [q[0]] + q[1..];
  }

  /** A write is read back, and unrelated paths keep their value. */
  lemma {:induction false} LookupAfterWrite(t: Yaml, p: Path, v: Yaml, q: Path)
    requires p != [] && Write(t, p, v).Ok?
    ensures Lookup(Write(t, p, v).value, p) == Some(v)
    ensures !Related(p, q) ==> Lookup(Write(t, p, v).value, q) == Lookup(t, q)
    decreases |p|
  {
    if |p| > 1 {
      var child := if p[0] in t.m && t.m[p[0]] != Null then t.m[p[0]] else EMPTY;
      if q != [] && q[0] == p[0] {
        RelatedStep(p, q);
        LookupAfterWrite(child, p[1..], v, q[1..]);
        if !Related(p, q) { assert q[1..] != []; }
      } else {
        LookupAfterWrite(child, p[1..], v, []);
      }
    } else {
      assert p[1..] == [];
      if q != [] && q[0] == p[0] { RelatedStep(p, q); }
    }
  }

  /** A successful delete removes the path and leaves unrelated paths alone. */
  lemma {:induction false} LookupAfterDelete(t: Yaml, p: Path, q: Path)
    requires p != [] && Delete(t, p).Ok? && Delete(t, p).value.Some?
    ensures Lookup(Delete(t, p).value.value, p) == None && Lookup(t, p).Some?
    ensures !Related(p, q) ==> Lookup(Delete(t, p).value.value, q) == Lookup(t, q)
    ensures !Shadowed(Delete(t, p).value.value, p)
    decreases |p|
  {
    var after := Delete(t, p).value.value;
    ShadowedStep(after, p);
    if |p| > 1 {
      if q != [] && q[0] == p[0] {
        RelatedStep(p, q);
        LookupAfterDelete(t.m[p[0]], p[1..], q[1..]);
      } else {
        LookupAfterDelete(t.m[p[0]], p[1..], []);
      }
    } else {
      assert p[1..] == [];
      if q != [] && q[0] == p[0] { RelatedStep(p, q); }
    }
  }

  /** A write raises exactly when the root, or an ancestor that is not null, is no mapping. */
  lemma {:induction false} WriteFailsIff(t: Yaml, p: Path, v: Yaml)
    requires p != []
    ensures Write(t, p, v).Err? <==> exists k | 0 <= k < |p| :: Blocks(t, p, k)
    decreases |p|
  {
    if !t.Mapping? {
      assert p[..0] == [] && Blocks(t, p, 0);
    } else if |p| > 1 {
      var child := if p[0] in t.m && t.m[p[0]] != Null then t.m[p[0]] else EMPTY;
      WriteFailsIff(child, p[1..], v);
      forall k | 0 <= k < |p| - 1 ensures Blocks(t, p, k + 1) <==> Blocks(child, p[1..], k) {
        BlocksBelow(t, p, k);
      }
      if k :| 0 <= k < |p| && Blocks(t, p, k) { assert Blocks(child, p[1..], k - 1); }
      if k :| 0 <= k < |p| - 1 && Blocks(child, p[1..], k) { assert Blocks(t, p, k + 1); }
    }
  }

  lemma BlocksBelow(t: Yaml, p: Path, k: nat)
    requires t.Mapping? && k + 1 < |p|
    ensures var child := if p[0] in t.m && t.m[p[0]] != Null then t.m[p[0]] else EMPTY;
            Blocks(t, p, k + 1) <==> Blocks(child, p[1..], k)
  {
    var rest := p[1..][..k];
    assert p[..k + 1][0] == p[0] && p[..k + 1][1..] == rest;
    assert Lookup(t, p[..k + 1]) == if p[0] in t.m then Lookup(t.m[p[0]], rest) else None;
    if k == 0 {
      assert rest == [];
      assert forall x :: Lookup(x, rest) == Some(x);
    } else {
      assert Lookup(EMPTY, rest) == None && Lookup(Null, rest) == None;
    }
  }

  /** The walk to `p` stops at its first `k` keys. */
  predicate Blocks(t: Yaml, p: Path, k: nat)
    requires k <= |p|
  {
    var at := Lookup(t, p[..k]);
    at.Some? && !at.value.Mapping? && (k == 0 || at.value != Null)
  }

  /** A delete finds something exactly where a lookup does. */
  lemma {:induction false} DeleteFindsIff(t: Yaml, p: Path)
    requires p != []
    ensures Delete(t, p).Ok? && Delete(t, p).value.Some? <==> Lookup(t, p).Some?
    decreases |p|
  {
    if t.Mapping? && p[0] in t.m {
      if |p| > 1 { DeleteFindsIff(t.m[p[0]], p[1..]); } else { assert p[1..] == []; }
    }
  }

  predicate OccursAt(key: string, text: string, i: nat) {
    i + |key| <= |text| && text[i..i + |key|] == key
  }

  lemma {:induction false} InfixOccurs(key: string, text: string)
    ensures IsInfix(key, text) <==> exists i: nat :: OccursAt(key, text, i)
  {
    if StartsWith(text, key) {
      assert OccursAt(key, text, 0);
    } else if text != "" {
      InfixOccurs(key, text[1..]);
      if i: nat :| OccursAt(key, text, i) {
        assert i > 0 && text[1..][i - 1..i - 1 + |key|] == text[i..i + |key|];
        assert OccursAt(key, text[1..], i - 1);
      }
      if i: nat :| OccursAt(key, text[1..], i) {
        assert text[i + 1..i + 1 + |key|] == text[1..][i..i + |key|];
        assert OccursAt(key, text, i + 1);
      }
    }
  }

  /** At its `k`-th key the delete walk meets a string or a list that answers the `in` test. */
  ghost predicate Traps(t: Yaml, p: Path, k: nat)
    requires k < |p|
  {
    match Lookup(t, p[..k])
    case Some(Str(text)) => exists i: nat :: OccursAt(p[k], text, i)
    case Some(Items(items)) => Str(p[k]) in items
    case _ => false
  }

  /** A delete raises exactly when it indexes such a string or list. */
  lemma {:induction false} DeleteFailsIff(t: Yaml, p: Path)
    requires p != []
    ensures Delete(t, p).Err? <==> exists k | 0 <= k < |p| :: Traps(t, p, k)
    decreases |p|
  {
    assert p[..0] == [];
    if t.Str? { InfixOccurs(p[0], t.text); }
    assert !t.Mapping? ==> (Traps(t, p, 0) <==> Contains(t, p[0]));
    forall k | 0 < k < |p|
      ensures Lookup(t, p[..k]) == if t.Mapping? && p[0] in t.m then Lookup(t.m[p[0]], p[1..][..k - 1]) else None
    {
      assert p[..k][0] == p[0] && p[..k][1..] == p[1..][..k - 1];
    }
    if t.Mapping? && p[0] in t.m && |p| > 1 {
      DeleteFailsIff(t.m[p[0]], p[1..]);
      if k :| 0 <= k < |p| && Traps(t, p, k) { assert Traps(t.m[p[0]], p[1..], k - 1); }
      if k :| 0 <= k < |p| - 1 && Traps(t.m[p[0]], p[1..], k) { assert Traps(t, p, k + 1); }
    }
  }

  // ---- the cursor walks ------------------------------------------------------------------------

  /** A mapping the cursor went through, and the key it took. */
  datatype Parent = Parent(m: map<string, Yaml>, key: string)

  /** The tree above a changed subtree. */
  function Replant(trail: seq<Parent>, r: Result<Yaml, PathError>): Result<Yaml, PathError>
    decreases |trail|
  {
    var n := |trail|;
    if n == 0 || r.Err? then r
    else Replant(trail[..n - 1], Ok(Mapping(trail[n - 1].m[trail[n - 1].key := r.value])))
  }

  lemma ReplantStep(trail: seq<Parent>, m: map<string, Yaml>, key: string, r: Result<Yaml, PathError>)
    ensures Replant(trail + [Parent(m, key)], r)
         == Replant(trail, if r.Ok? then Ok(Mapping(m[key := r.value])) else r)
  {
    assert (trail + [Parent(m, key)])[..|trail|] == trail;
  }

  function ReplantFound(trail: seq<Parent>, r: Result<Option<Yaml>, PathError>): Result<Option<Yaml>, PathError> {
    match r
    case Err(_) => r
    case Ok(None) => r
    case Ok(Some(c)) =>
      match Replant(trail, Ok(c))
      case Err(e) => Err(e)
      case Ok(tree) => Ok(Some(tree))
  }

  lemma ReplantFoundStep(trail: seq<Parent>, m: map<string, Yaml>, key: string, r: Result<Option<Yaml>, PathError>)
    ensures ReplantFound(trail + [Parent(m, key)], r)
         == ReplantFound(trail, if r.Ok? && r.value.Some? then Ok(Some(Mapping(m[key := r.value.value]))) else r)
  {
    if r.Ok? && r.value.Some? { ReplantStep(trail, m, key, Ok(r.value.value)); }
  }

  /** Trees are values here, so the assignment at the cursor is carried back up to the root. */
  method Rebuild(trail: seq<Parent>, leaf: Yaml) returns (root: Yaml)
    ensures Ok(root) == Replant(trail, Ok(leaf))
  {
    root := leaf;
    var n: nat := |trail|;
    assert trail[..n] == trail;
    while n > 0
      invariant n <= |trail| && Replant(trail, Ok(leaf)) == Replant(trail[..n], Ok(root))
    {
      n := n - 1;
      assert trail[..n + 1][..n] == trail[..n];
      root := Mapping(trail[n].m[trail[n].key := root]);
    }
  }

  method WriteWalk(t: Yaml, p: Path, v: Yaml) returns (r: Result<Yaml, PathError>)
    requires p != []
    ensures r == Write(t, p, v)
  {
    var cursor, trail := t, [];
    var k := 0;
    while k < |p| - 1
      invariant 0 <= k <= |p| - 1
      invariant Write(t, p, v) == Replant(trail, Write(cursor, p[k..], v))
    {
      var key := p[k];
      assert p[k..][0] == key && p[k..][1..] == p[k + 1..];
      if !cursor.Mapping? { return Err(NotAMapping); }
      var m := cursor.m;
      if key !in m || m[key] == Null {
        m := m[key := EMPTY];
      }
      ghost var below := Write(m[key], p[k + 1..], v);
      assert below.Ok? ==> m[key := below.value] == cursor.m[key := below.value];
      ReplantStep(trail, m, key, below);
      trail := trail + [Parent(m, key)];
      cursor := m[key];
      k := k + 1;
    }
    if !cursor.Mapping? { return Err(NotAMapping); }
    var root := Rebuild(trail, Mapping(cursor.m[p[k] := v]));
    r := Ok(root);
  }

  method DeleteWalk(t: Yaml, p: Path) returns (r: Result<Option<Yaml>, PathError>)
    requires p != []
    ensures r == Delete(t, p)
  {
    var cursor, trail := t, [];
    var k := 0;
    while k < |p| - 1
      invariant 0 <= k <= |p| - 1
      invariant Delete(t, p) == ReplantFound(trail, Delete(cursor, p[k..]))
    {
      var key := p[k];
      assert p[k..][0] == key && p[k..][1..] == p[k + 1..];
      if !Contains(cursor, key) { return Ok(None); }
      if !cursor.Mapping? { return Err(NotAMapping); }
      ReplantFoundStep(trail, cursor.m, key, Delete(cursor.m[key], p[k + 1..]));
      trail := trail + [Parent(cursor.m, key)];
      cursor := cursor.m[key];
      k := k + 1;
    }
    if !Contains(cursor, p[k]) { return Ok(None); }
    if !cursor.Mapping? { return Err(NotAMapping); }
    var root := Rebuild(trail, Mapping(cursor.m - {p[k]}));
    r := Ok(Some(root));
  }

  /** An overlay file on disk; None when the file does not exist. */
  class OverlayFile {
    var content: Option<Yaml>

    constructor ()
      ensures content == None
    {
      content := None;
    }

    /** `yaml.load(...) or {}`. */
    function Loaded(): Yaml
      reads this
    {
      if content == None || content.value == Null || content.value == Str("") || content.value == Items([])
         || content.value == Scalar(0)
      then EMPTY else content.value
    }

    /** Writes the leaf and nothing unrelated, or raises and changes nothing. */
    method WriteValue(p: Path, v: Yaml) returns (r: Result<(), PathError>)
      modifies this
      ensures p == [] ==> r == Err(EmptyPath)
      ensures p != [] ==> (r.Err? <==> exists k | 0 <= k < |p| :: Blocks(old(Loaded()), p, k))
      ensures r.Err? ==> content == old(content)
      ensures r.Ok? ==>
                && p != [] && Write(old(Loaded()), p, v) == Ok(Loaded()) && content == Some(Loaded())
                && Lookup(Loaded(), p) == Some(v)
                && forall q | !Related(p, q) :: Lookup(Loaded(), q) == Lookup(old(Loaded()), q)
    {
      if p == [] { return Err(EmptyPath); }
      ghost var before := Loaded();
      WriteFailsIff(before, p, v);
      var written := WriteWalk(Loaded(), p, v);
      match written {
        case Err(e) => r := Err(e);
        case Ok(t) =>
          content := Some(t);
          r := Ok(());
          LookupAfterWrite(before, p, v, p);
          forall q | !Related(p, q) ensures Lookup(t, q) == Lookup(before, q) {
            LookupAfterWrite(before, p, v, q);
          }
      }
    }

    /** Deletes the leaf if there is one, and nothing unrelated. */
    method DeleteValue(p: Path) returns (r: Result<bool, PathError>)
      requires p != []
      modifies this
      ensures r == Ok(true) <==> old(content) != None && Lookup(old(Loaded()), p).Some?
      ensures r.Err? <==> old(content) != None && exists k | 0 <= k < |p| :: Traps(old(Loaded()), p, k)
      ensures r != Ok(true) ==> content == old(content)
      ensures r == Ok(true) ==>
                && Delete(old(Loaded()), p) == Ok(content) && content.Some?
                && Lookup(content.value, p) == None
                && forall q | !Related(p, q) :: Lookup(content.value, q) == Lookup(old(Loaded()), q)
    {
      if content == None { return Ok(false); }
      ghost var before := Loaded();
      DeleteFindsIff(before, p);
      DeleteFailsIff(before, p);
      var deleted := DeleteWalk(Loaded(), p);
      match deleted {
        case Err(e) => r := Err(e);
        case Ok(None) => r := Ok(false);
        case Ok(Some(t)) =>
          content := Some(t);
          r := Ok(true);
          LookupAfterDelete(before, p, p);
          forall q | !Related(p, q) ensures Lookup(t, q) == Lookup(before, q) {
            LookupAfterDelete(before, p, q);
          }
      }
    }
  }

  /** A missing file, and one that holds a falsy value, count as an empty mapping; any other file as what it holds. */
  lemma FalsyCountsAsEmpty(f: OverlayFile)
    ensures f.content in {None, Some(Null), Some(Str("")), Some(Items([])), Some(Scalar(0)), Some(Mapping(map[]))}
       <==> f.Loaded() == Mapping(map[])
    ensures f.Loaded() != Mapping(map[]) ==> f.content == Some(f.Loaded())
  {
  }

  // ---- overlay laws -------------------------------------------------------------------------

  /** Setting a non-mapping value in the overlay is what the merged configuration then shows. */
  lemma SetIsVisible(base: Yaml, overlay: Yaml, p: Path, v: Yaml)
    requires base.Mapping? && p != [] && Write(overlay, p, v).Ok? && !v.Mapping?
    ensures Lookup(Merge(base, Write(overlay, p, v).value), p) == Some(v)
  {
    LookupAfterWrite(overlay, p, v, []);
    LookupInMerge(base, Write(overlay, p, v).value, p);
  }

  /** Resetting a set value reveals the base again. */
  lemma ResetRevealsBase(base: Yaml, overlay: Yaml, p: Path)
    requires base.Mapping? && p != [] && Delete(overlay, p).Ok? && Delete(overlay, p).value.Some?
    ensures Lookup(Merge(base, Delete(overlay, p).value.value), p) == Lookup(base, p)
  {
    LookupAfterDelete(overlay, p, []);
    LookupInMerge(base, Delete(overlay, p).value.value, p);
  }

  /** A null that the write of `p` turns into a mapping, at an ancestor that `q` shares. */
  ghost predicate NullAncestor(t: Yaml, p: Path, q: Path) {
    exists k :: NullAt(t, p, q, k)
  }

  predicate NullAt(t: Yaml, p: Path, q: Path, k: int) {
    0 < k < |p| && k < |q| && p[..k] == q[..k] && Lookup(t, p[..k]) == Some(Null)
  }

  lemma NullAncestorStep(t: Yaml, p: Path, q: Path)
    requires t.Mapping? && p != [] && q != []
    ensures NullAncestor(t, p, q)
       <==> |p| > 1 && |q| > 1 && p[0] == q[0] && p[0] in t.m
            && (t.m[p[0]] == Null || NullAncestor(t.m[p[0]], p[1..], q[1..]))
  {
    if p[0] == q[0] && p[0] in t.m {
      var c := t.m[p[0]];
      if k :| NullAt(t, p, q, k) {
        assert p[..k][0] == p[0] && p[..k][1..] == p[1..][..k - 1];
        assert Lookup(t, p[..k]) == Lookup(c, p[1..][..k - 1]);
        assert q[..k][1..] == q[1..][..k - 1];
        if k > 1 { assert NullAt(c, p[1..], q[1..], k - 1); }
      }
      if k :| NullAt(c, p[1..], q[1..], k) {
        assert p[..k + 1] == [p[0]] + p[1..][..k] && q[..k + 1] == [q[0]] + q[1..][..k];
        assert p[..k + 1][1..] == p[1..][..k];
        assert NullAt(t, p, q, k + 1);
      }
      if c == Null && |p| > 1 && |q| > 1 {
        assert p[..1][1..] == [] && p[..1] == q[..1];
        assert NullAt(t, p, q, 1);
      }
    } else {
      forall k ensures !NullAt(t, p, q, k) {
        if 0 < k < |p| && k < |q| {
          assert p[..k][0] == p[0];
          assert q[..k][0] == q[0];
        }
      }
    }
  }

  /** Writing changes which unrelated paths are shadowed only by lifting a null ancestor. */
  lemma {:induction false} ShadowedAfterWrite(t: Yaml, p: Path, v: Yaml, q: Path)
    requires p != [] && Write(t, p, v).Ok? && !Related(p, q)
    ensures Shadowed(Write(t, p, v).value, q) <==> Shadowed(t, q) && !NullAncestor(t, p, q)
    decreases |p|
  {
    var after := Write(t, p, v).value;
    assert q != [];
    ShadowedStep(t, q);
    ShadowedStep(after, q);
    NullAncestorStep(t, p, q);
    if |p| > 1 && q[0] == p[0] {
      RelatedStep(p, q);
      assert q[1..] != [];
      var child := if p[0] in t.m && t.m[p[0]] != Null then t.m[p[0]] else EMPTY;
      ShadowedAfterWrite(child, p[1..], v, q[1..]);
      ShadowedStep(child, q[1..]);
      if child == EMPTY { NullAncestorStep(EMPTY, p[1..], q[1..]); }
    } else if q[0] == p[0] {
      RelatedStep(p, q);
    }
  }

  /**
   * Setting `p` leaves every unrelated path of the merged configuration alone, except exactly those
   * that a null ancestor of `p` was hiding.
   */
  lemma SetKeepsUnrelated(base: Yaml, overlay: Yaml, p: Path, v: Yaml, q: Path)
    requires base.Mapping? && p != [] && Write(overlay, p, v).Ok? && !Related(p, q)
    ensures Lookup(Merge(base, Write(overlay, p, v).value), q) == Lookup(Merge(base, overlay), q)
       <==> !(NullAncestor(overlay, p, q) && Lookup(base, q).Some?)
  {
    var after := Write(overlay, p, v).value;
    LookupAfterWrite(overlay, p, v, q);
    ShadowedAfterWrite(overlay, p, v, q);
    LookupInMerge(base, after, q);
    LookupInMerge(base, overlay, q);
    ShadowNeedsDepth(overlay, q);
    if NullAncestor(overlay, p, q) {
      var k :| NullAt(overlay, p, q, k);
      assert ShadowAt(overlay, q[..k]);
    }
  }

  /** A delete never changes which unrelated paths are shadowed. */
  lemma {:induction false} ShadowedAfterDelete(t: Yaml, p: Path, q: Path)
    requires p != [] && Delete(t, p).Ok? && Delete(t, p).value.Some? && !Related(p, q)
    ensures Shadowed(Delete(t, p).value.value, q) <==> Shadowed(t, q)
    decreases |p|
  {
    var after := Delete(t, p).value.value;
    assert q != [];
    ShadowedStep(t, q);
    ShadowedStep(after, q);
    if q[0] == p[0] {
      RelatedStep(p, q);
      if |p| > 1 {
        assert q[1..] != [];
        ShadowedAfterDelete(t.m[p[0]], p[1..], q[1..]);
      }
    }
  }

  /** Resetting `p` leaves every unrelated path of the merged configuration alone. */
  lemma ResetKeepsUnrelated(base: Yaml, overlay: Yaml, p: Path, q: Path)
    requires base.Mapping? && p != [] && Delete(overlay, p).Ok? && Delete(overlay, p).value.Some? && !Related(p, q)
    ensures Lookup(Merge(base, Delete(overlay, p).value.value), q) == Lookup(Merge(base, overlay), q)
  {
    var after := Delete(overlay, p).value.value;
    LookupAfterDelete(overlay, p, q);
    ShadowedAfterDelete(overlay, p, q);
    LookupInMerge(base, after, q);
    LookupInMerge(base, overlay, q);
  }

  // ---- two lookup orders -----------------------------------------------------------------------

  /** `_dig`: null counts as undefined. */
  function Dig(t: Yaml, p: Path): Option<Yaml> {
    if Lookup(t, p) == Some(Null) then None else Lookup(t, p)
  }

  /** `ConfigService._resolve_value` before its default: project first, then global. */
  function ServiceValue(project: Yaml, global: Yaml, p: Path): Option<Yaml> {
    if Dig(project, p).Some? then Dig(project, p) else Dig(global, p)
  }

  /** `load_app_config`: global merged over project. */
  function LoaderValue(project: Yaml, global: Yaml, p: Path): Option<Yaml>
    requires project.Mapping? && global.Mapping?
  {
    Dig(Merge(project, global), p)
  }

  /** The service reads the project layer, unless it says nothing or null there, and else the global one. */
  lemma ServiceReadsProjectFirst(project: Yaml, global: Yaml, p: Path)
    ensures var own, other := Lookup(project, p), Lookup(global, p);
            ServiceValue(project, global, p)
            == if own.Some? && own.value != Null then own else if other.Some? && other.value != Null then other else None
  {
  }

  /** The global layer says nothing about `p`: no value there, and no ancestor that hides it. */
  ghost predicate Silent(t: Yaml, p: Path) {
    Lookup(t, p) == None && !Shadowed(t, p)
  }

  /**
   * The two orders agree on a leaf exactly when the project layer leaves it undefined, or the global
   * layer is silent about it, or both say the same.
   */
  lemma LookupOrdersAgreeIff(project: Yaml, global: Yaml, p: Path)
    requires project.Mapping? && global.Mapping?
    requires Lookup(project, p).Some? ==> !Lookup(project, p).value.Mapping?
    ensures ServiceValue(project, global, p) == LoaderValue(project, global, p)
       <==> Dig(project, p) == None || Silent(global, p) || Dig(project, p) == Lookup(global, p)
  {
    LookupInMerge(project, global, p);
    ShadowNeedsDepth(global, p);
  }
}
