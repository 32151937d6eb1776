/** The diagram editor's own state (src/editors/ConfigEditor.ts): the per-perspective view
    cache (node positions and the extra entities shown), the registry of open panels, the
    entity creation and removal commands of a perspective, and the check that an entity
    type can be shown in a perspective. */
module Editor {
  import opened Js
  import opened Names
  import opened Links
  import opened Lifecycle

  /** The coordinates the diagram hands over for one node, kept as they are. */
  type Point = seq<int>

  /** The cache of one perspective (`EditorCache`): both parts may be missing. */
  datatype CacheEntry = CacheEntry(positions: Option<map<string, Point>>, extraEntities: Option<string>)

  /** A webview panel, by identity. */
  type PanelId = nat

  /** The cache entry of `key`, `{}` when there is none. */
  function EntryOf(cache: map<string, CacheEntry>, key: string): (e: CacheEntry)
    ensures key !in cache ==> e == CacheEntry(None, None)
    ensures key in cache ==> e == cache[key]
  {
    if key in cache then cache[key] else CacheEntry(None, None)
  }

  /** A value taken as a condition: `undefined` and `""` are falsy. */
  predicate Present(s: Option<string>)
  {
    s.Some? && s.value != ""
  }

  // ---------------------------------------------------------------------------
  // Extra entities: a `;`-separated list of `type.name` ids

  /** The ids of `items` pushed, in order, onto `ee` when not already there. */
  function AddMissing(ee: seq<string>, items: seq<string>): (r: seq<string>)
    ensures ee <= r
    ensures forall x :: x in r <==> x in ee || x in items
    ensures forall i | |ee| <= i < |r| :: r[i] !in r[..i]
  {
    if |items| == 0 then ee
    else
      var r := AddMissing(ee, items[..|items| - 1]);
      var e := items[|items| - 1];
      assert forall x :: x in items <==> x in items[..|items| - 1] || x == e;
      if e in r then r else
        assert (r + [e])[..|r|] == r;
        r + [e]
  }

  /** Ids that are all present already add nothing. */
  lemma {:induction false} AddMissingPresent(ee: seq<string>, items: seq<string>)
    requires forall x | x in items :: x in ee
    ensures AddMissing(ee, items) == ee
  {
    if |items| > 0 {
      assert forall x | x in items[..|items| - 1] :: x in items;
      AddMissingPresent(ee, items[..|items| - 1]);
      assert items[|items| - 1] in items;
    }
  }

  /** `updateExtraEntitiesInCache`'s new value: `""` changes nothing; without a value the
      argument is stored verbatim; otherwise the missing ids are appended and the list is
      stored only if it grew. */
  function UpdateExtras(current: Option<string>, extra: string): (r: Option<string>)
    // a non-empty argument leaves a stored list holding each of its ids ...
    ensures extra != "" ==> r.Some? && forall x | x in Split(extra, ';') :: x in Split(r.value, ';')
    // ... and no id stored before is lost
    ensures Present(current) ==> r.Some? && forall x | x in Split(current.value, ';') :: x in Split(r.value, ';')
  {
    if extra == "" then current
    else if Present(current) then
      var ee := Split(current.value, ';');
      var added := AddMissing(ee, Split(extra, ';'));
      if |ee| < |added| then
        NoSeparatorIn(ee, Split(extra, ';'), added);
        SplitJoin(added, ';');
        Some(Join(added, ";"))
      else current
    else Some(extra)
  }

  /** Whether `updateExtraEntitiesInCache` writes the workspace state (`modified`). */
  predicate UpdateWrites(current: Option<string>, extra: string)
  {
    extra != "" && (!Present(current) || |Split(current.value, ';')| < |AddMissing(Split(current.value, ';'), Split(extra, ';'))|)
  }

  /** The state is written exactly when the stored value changes. */
  lemma UpdateWritesIffChanged(current: Option<string>, extra: string)
    ensures UpdateWrites(current, extra) <==> UpdateExtras(current, extra) != current
  {
    if extra != "" && Present(current) {
      var ee := Split(current.value, ';');
      var added := AddMissing(ee, Split(extra, ';'));
      if |ee| < |added| {
        NoSeparatorIn(ee, Split(extra, ';'), added);
        SplitJoin(added, ';');
        JoinSplit(current.value, ';');
      }
    }
  }

  /** The pieces of two splits, and what is made of them, hold no separator. */
  lemma NoSeparatorIn(a: seq<string>, b: seq<string>, r: seq<string>)
    requires forall i | 0 <= i < |a| :: ';' !in a[i]
    requires forall i | 0 <= i < |b| :: ';' !in b[i]
    requires forall x | x in r :: x in a || x in b
    ensures forall i | 0 <= i < |r| :: ';' !in r[i]
  {
    forall i | 0 <= i < |r| ensures ';' !in r[i] {
      assert r[i] in r;
      if r[i] in a {
        var k :| 0 <= k < |a| && a[k] == r[i];
      } else {
        var k :| 0 <= k < |b| && b[k] == r[i];
      }
    }
  }

  /** A repeated update changes nothing. */
  lemma UpdateExtrasIdempotent(current: Option<string>, extra: string)
    ensures UpdateExtras(UpdateExtras(current, extra), extra) == UpdateExtras(current, extra)
  {
    var items := Split(extra, ';');
    var once := UpdateExtras(current, extra);
    if extra != "" {
      if Present(current) {
        var ee := Split(current.value, ';');
        var added := AddMissing(ee, items);
        if |ee| < |added| {
          NoSeparatorIn(ee, items, added);
          SplitJoin(added, ';');
          assert Join(added, ";") != "" by {
            assert |added| > 1;
            JoinNonEmpty(added);
          }
          assert forall x | x in items :: x in added;
          AddMissingPresent(added, items);
        }
      } else {
        assert forall x | x in items :: x in Split(extra, ';');
        AddMissingPresent(Split(extra, ';'), items);
      }
    }
  }

  /** Joined lists of two or more pieces have a separator, so are not empty. */
  lemma JoinNonEmpty(parts: seq<string>)
    requires |parts| > 1
    ensures Join(parts, ";") != ""
  {
    assert |Join(parts, ";")| >= 1;
  }

  /** The first position of `x` in `s`, or -1 (`Array.prototype.indexOf`). */
  function IndexIn(s: seq<string>, x: string): (i: int)
    ensures i == -1 <==> x !in s
    ensures i != -1 ==> 0 <= i < |s| && s[i] == x && x !in s[..i]
  {
    if |s| == 0 then -1
    else if s[0] == x then 0
    else
      var j := IndexIn(s[1..], x);
      if j == -1 then -1
      else
        assert s[..j + 1] == [s[0]] + s[1..][..j];
        j + 1
  }

  /** `p > -1 && ee.splice(p, 1)` with `p = ee.indexOf(e)`. */
  function RemoveFirst(ee: seq<string>, e: string): (r: seq<string>)
    ensures |r| == if e in ee then |ee| - 1 else |ee|
  {
    var p := IndexIn(ee, e);
    if p == -1 then ee else ee[..p] + ee[p + 1..]
  }

  /** One occurrence of `e` less, if there was one. */
  lemma RemoveFirstCount(ee: seq<string>, e: string)
    ensures multiset(RemoveFirst(ee, e)) == multiset(ee) - multiset{e}
  {
    var p := IndexIn(ee, e);
    if p == -1 {
      assert multiset(ee)[e] == 0;
    } else {
      assert ee == ee[..p] + [e] + ee[p + 1..];
    }
  }

  /** The first occurrence of each of `items` removed from `ee`, in turn. */
  function RemoveFirstEach(ee: seq<string>, items: seq<string>): (r: seq<string>)
    ensures |r| <= |ee|
  {
    if |items| == 0 then ee
    else RemoveFirst(RemoveFirstEach(ee, items[..|items| - 1]), items[|items| - 1])
  }

  /** The removal takes away exactly the given ids, as many times as each is given and
      present. */
  lemma RemoveFirstEachCount(ee: seq<string>, items: seq<string>)
    ensures multiset(RemoveFirstEach(ee, items)) == multiset(ee) - multiset(items)
  {
    forall s, e ensures multiset(RemoveFirst(s, e)) == multiset(s) - multiset{e} {
      RemoveFirstCount(s, e);
    }
    RemoveEachIs(ee, items);
    RemoveEachCount(ee, items, RemoveFirst);
  }

  /** `RemoveFirstEach` with the removal of one id as a parameter. */
  function RemoveEach(ee: seq<string>, items: seq<string>, remove: (seq<string>, string) -> seq<string>): seq<string>
  {
    if |items| == 0 then ee
    else remove(RemoveEach(ee, items[..|items| - 1], remove), items[|items| - 1])
  }

  lemma {:induction false} RemoveEachIs(ee: seq<string>, items: seq<string>)
    ensures RemoveEach(ee, items, RemoveFirst) == RemoveFirstEach(ee, items)
  {
    if |items| > 0 {
      RemoveEachIs(ee, items[..|items| - 1]);
    }
  }

  /** A removal taking one occurrence away, applied for each of `items`, takes them all away. */
  lemma {:induction false} RemoveEachCount(ee: seq<string>, items: seq<string>, remove: (seq<string>, string) -> seq<string>)
    requires forall s, e :: multiset(remove(s, e)) == multiset(s) - multiset{e}
    ensures multiset(RemoveEach(ee, items, remove)) == multiset(ee) - multiset(items)
  {
    if |items| > 0 {
      var n := |items| - 1;
      var prev := RemoveEach(ee, items[..n], remove);
      RemoveEachCount(ee, items[..n], remove);
      CountStep(ee, items, prev, remove(prev, items[n]));
    }
  }

  lemma CountStep(ee: seq<string>, items: seq<string>, prev: seq<string>, next: seq<string>)
    requires |items| > 0
    requires multiset(prev) == multiset(ee) - multiset(items[..|items| - 1])
    requires multiset(next) == multiset(prev) - multiset{items[|items| - 1]}
    ensures multiset(next) == multiset(ee) - multiset(items)
  {
    var n := |items| - 1;
    assert items == items[..n] + [items[n]];
    assert multiset(items) == multiset(items[..n]) + multiset{items[n]};
    MultisetMinusStep(multiset(ee), multiset(items[..n]), multiset(prev), multiset(next), items[n]);
  }

  lemma MultisetMinusStep(a: multiset<string>, b: multiset<string>, p: multiset<string>, q: multiset<string>, e: string)
    requires p == a - b && q == p - multiset{e}
    ensures q == a - (b + multiset{e})
  {
    forall x ensures q[x] == (a - (b + multiset{e}))[x] {
    }
  }

  /** `removeExtraEntitiesInCache`'s new value: removed when the list shrank, `undefined`
      once it is empty; `""` or no stored value changes nothing. */
  function RemoveExtras(current: Option<string>, extra: string): (r: Option<string>)
    // only a stored list changes, and then it keeps fewer ids, each of them stored before
    ensures r != current ==> Present(current)
    ensures r != current && r.Some? ==>
      && |Split(r.value, ';')| < |Split(current.value, ';')|
      && forall x | x in Split(r.value, ';') :: x in Split(current.value, ';')
  {
    if extra == "" || !Present(current) then current
    else
      var ee := Split(current.value, ';');
      var rest := RemoveFirstEach(ee, Split(extra, ';'));
      if |ee| > |rest| then
        if |rest| > 0 then
          RemoveFirstEachWithin(ee, Split(extra, ';'));
          NoSeparatorIn(ee, [], rest);
          SplitJoin(rest, ';');
          Some(Join(rest, ";"))
        else None
      else current
  }

  /** The ids left by the removal were there before. */
  lemma RemoveFirstEachWithin(ee: seq<string>, items: seq<string>)
    ensures forall x | x in RemoveFirstEach(ee, items) :: x in ee
  {
    RemoveFirstEachCount(ee, items);
    forall x | x in RemoveFirstEach(ee, items) ensures x in ee {
      assert x in multiset(RemoveFirstEach(ee, items));
    }
  }

  predicate RemoveWrites(current: Option<string>, extra: string)
  {
    extra != "" && Present(current) && |Split(current.value, ';')| > |RemoveFirstEach(Split(current.value, ';'), Split(extra, ';'))|
  }

  /** The state is written exactly when the stored value changes. */
  lemma RemoveWritesIffChanged(current: Option<string>, extra: string)
    ensures RemoveWrites(current, extra) <==> RemoveExtras(current, extra) != current
  {
    if extra != "" && Present(current) {
      var ee := Split(current.value, ';');
      var rest := RemoveFirstEach(ee, Split(extra, ';'));
      if |ee| > |rest| && |rest| > 0 {
        RemoveFirstEachCount(ee, Split(extra, ';'));
        assert forall x | x in rest :: x in ee by {
          forall x | x in rest ensures x in ee {
            assert x in multiset(rest);
          }
        }
        NoSeparatorIn(ee, [], rest);
        SplitJoin(rest, ';');
        JoinSplit(current.value, ';');
      }
    }
  }

  /** Removing an id just added by an update gives the previous value back. */
  lemma UpdateThenRemove(current: Option<string>, id: string)
    requires id != "" && ';' !in id
    requires current.None? || (Present(current) && id !in Split(current.value, ';'))
    ensures RemoveExtras(UpdateExtras(current, id), id) == current
  {
    SingleSplit(id);
    if current.Some? {
      var ee := Split(current.value, ';');
      AddMissingOne(ee, id);
      var added := ee + [id];
      NoSeparatorIn(ee, [id], added);
      SplitJoin(added, ';');
      JoinNonEmpty(added);
      assert UpdateExtras(current, id) == Some(Join(added, ";"));
      RemoveLastAdded(ee, id);
      JoinSplit(current.value, ';');
    } else {
      RemoveFirstEachOne([id], id);
      assert RemoveFirst([id], id) == [];
    }
  }

  lemma RemoveFirstEachOne(ee: seq<string>, x: string)
    ensures RemoveFirstEach(ee, [x]) == RemoveFirst(ee, x)
  {
    assert [x][..0] == [];
  }

  /** An id appended last, and not present before, is the one the removal takes. */
  lemma RemoveLastAdded(ee: seq<string>, x: string)
    requires x !in ee
    ensures RemoveFirstEach(ee + [x], [x]) == ee
  {
    RemoveFirstEachOne(ee + [x], x);
    var added := ee + [x];
    assert added[..|ee|] == ee;
    assert IndexIn(added, x) == |ee|;
    assert added[..|ee|] + added[|ee| + 1..] == ee;
  }

  lemma AddMissingOne(ee: seq<string>, x: string)
    requires x !in ee
    ensures AddMissing(ee, [x]) == ee + [x]
  {
    assert [x][..0] == [];
    assert AddMissing(ee, []) == ee;
  }

  /** The update loop of `updateExtraEntitiesInCache` on the split list. */
  method PushMissing(ee: seq<string>, items: seq<string>) returns (r: seq<string>)
    ensures r == AddMissing(ee, items)
  {
    r := ee;
    var i := 0;
    while i < |items|
      invariant 0 <= i <= |items|
      invariant r == AddMissing(ee, items[..i])
    {
      assert items[..i + 1][..i] == items[..i];
      if items[i] !in r {
        r := r + [items[i]];
      }
      i := i + 1;
    }
    assert items[..i] == items;
  }

  /** The removal loop of `removeExtraEntitiesInCache` on the split list. */
  method SpliceEach(ee: seq<string>, items: seq<string>) returns (r: seq<string>)
    ensures r == RemoveFirstEach(ee, items)
  {
    r := ee;
    var i := 0;
    while i < |items|
      invariant 0 <= i <= |items|
      invariant r == RemoveFirstEach(ee, items[..i])
    {
      RemoveFirstEachStep(ee, items, i);
      var p := IndexIn(r, items[i]);
      if p > -1 {
        r := r[..p] + r[p + 1..];
      }
      i := i + 1;
    }
    assert items[..i] == items;
  }

  lemma RemoveFirstEachStep(ee: seq<string>, items: seq<string>, i: nat)
    requires i < |items|
    ensures RemoveFirstEach(ee, items[..i + 1]) == RemoveFirst(RemoveFirstEach(ee, items[..i]), items[i])
  {
    assert items[..i + 1][..i] == items[..i];
  }

  /** A string without a separator splits into itself. */
  lemma SingleSplit(s: string)
    requires ';' !in s
    ensures Split(s, ';') == [s]
  {
  }

  // ---------------------------------------------------------------------------
  // Positions

  /** The positions map after `pv[k] = v` for each entry in order. */
  function Overwrite(pos: map<string, Point>, entries: seq<(string, Point)>): (r: map<string, Point>)
    ensures forall k | k in pos :: k in r
    ensures forall i | 0 <= i < |entries| :: entries[i].0 in r
  {
    if |entries| == 0 then pos
    else
      var n := |entries| - 1;
      var r := Overwrite(pos, entries[..n]);
      assert forall i | 0 <= i < n :: entries[..n][i] == entries[i];
      r[entries[n].0 := entries[n].1]
  }

  /** Keys named by no entry keep their position, and no other key appears. */
  lemma {:induction false} OverwriteKeeps(pos: map<string, Point>, entries: seq<(string, Point)>, k: string)
    requires forall i | 0 <= i < |entries| :: entries[i].0 != k
    ensures k in Overwrite(pos, entries) <==> k in pos
    ensures k in pos ==> Overwrite(pos, entries)[k] == pos[k]
  {
    if |entries| > 0 {
      var n := |entries| - 1;
      assert forall i | 0 <= i < n :: entries[..n][i] == entries[i];
      OverwriteKeeps(pos, entries[..n], k);
    }
  }

  /** A key takes the value of the last entry naming it. */
  lemma {:induction false} OverwriteLast(pos: map<string, Point>, entries: seq<(string, Point)>, i: nat)
    requires i < |entries|
    requires forall j | i < j < |entries| :: entries[j].0 != entries[i].0
    ensures Overwrite(pos, entries)[entries[i].0] == entries[i].1
  {
    var n := |entries| - 1;
    if i < n {
      assert forall j | 0 <= j < n :: entries[..n][j] == entries[j];
      OverwriteLast(pos, entries[..n], i);
    }
  }

  /** The entry `getPositionsCache` leaves behind: `{ positions: {} }` for a new perspective. */
  function PositionsEntry(cache: map<string, CacheEntry>, key: string): (e: CacheEntry)
    ensures key !in cache ==> e.positions == Some(map[])
    ensures key in cache ==> e == cache[key]
  {
    if key in cache then cache[key] else CacheEntry(Some(map[]), None)
  }

  /** What `getPositionsCache` returns: the stored positions, or a fresh `{}`. */
  function PositionsOf(e: CacheEntry): map<string, Point>
  {
    if e.positions.Some? then e.positions.value else map[]
  }

  // ---------------------------------------------------------------------------
  // Panel registry

  /** A registry of the panels of one document after `updateElement`: the panels of the
      old perspective id are moved to the new one. */
  function Remap(val: map<string, seq<PanelId>>, oldId: string, newId: string): (r: map<string, seq<PanelId>>)
    ensures oldId !in val ==> r == val
    ensures oldId in val ==> oldId !in r
    ensures oldId in val && newId != oldId ==> newId in r && r[newId] == val[oldId]
    ensures forall k | k != oldId && k != newId :: (k in r <==> k in val) && (k in r ==> r[k] == val[k])
  {
    if oldId in val then val[newId := val[oldId]] - {oldId} else val
  }

  /** The loop of `updateElement` over the documents' registries. */
  method RemapAll(panels: map<string, map<string, seq<PanelId>>>, oldId: string, newId: string)
    returns (r: map<string, map<string, seq<PanelId>>>)
    ensures r == map u | u in panels :: Remap(panels[u], oldId, newId)
  {
    r := panels;
    var todo := panels.Keys;
    while todo != {}
      invariant todo <= panels.Keys && r.Keys == panels.Keys
      invariant forall u | u in todo :: r[u] == panels[u]
      invariant forall u | u in r && u !in todo :: r[u] == Remap(panels[u], oldId, newId)
      decreases |todo|
    {
      var u :| u in todo;
      r := r[u := Remap(r[u], oldId, newId)];
      todo := todo - {u};
    }
  }

  /** Renaming back restores the registry when the new id was free. */
  lemma RemapBack(val: map<string, seq<PanelId>>, a: string, b: string)
    requires a != b && b !in val
    ensures Remap(Remap(val, a, b), b, a) == val
  {
  }

  /** Renaming an entity to its own name drops its panels from the registry. */
  lemma RemapSameNameDrops(val: map<string, seq<PanelId>>, id: string)
    requires id in val
    ensures id !in Remap(val, id, id)
  {
  }

  // ---------------------------------------------------------------------------
  // The child-type check of `addNodeToActiveDiagram`

  /** The breadth-first search for a type whose children include `nodeType`, from the
      types in `queue`; a falsy type ends it. `None` when `fuel` dequeues did not settle it:
      without a visited set, the search does not end on a cycle of child types. */
  function Search(rel: Relations, queue: seq<string>, nodeType: string, fuel: nat): (r: Option<bool>)
    // an answer takes at least one dequeue, and a yes found a type, other than the empty
    // one, with `nodeType` among its child types
    ensures r.Some? ==> fuel > 0
    ensures r == Some(true) ==> exists t | t != "" :: nodeType in rel.childTypes(t)
    decreases fuel
  {
    if fuel == 0 then None
    else if |queue| == 0 || queue[0] == "" then Some(false)
    else if nodeType in rel.childTypes(queue[0]) then Some(true)
    else Search(rel, queue[1..] + rel.childTypes(queue[0]), nodeType, fuel - 1)
  }

  /** Whether an entity of `nodeType` may be shown in the perspective `perspectiveId`;
      `None` stands for a search that does not end within `fuel` steps. */
  method CheckChildType(rel: Relations, perspectiveId: string, nodeType: string, fuel: nat) returns (r: Option<bool>)
    ensures r == Search(rel, [Head(perspectiveId, '.')], nodeType, fuel)
  {
    var queue := [Head(perspectiveId, '.')];
    var n := fuel;
    while true
      invariant Search(rel, queue, nodeType, n) == Search(rel, [Head(perspectiveId, '.')], nodeType, fuel)
      decreases n
    {
      if n == 0 {
        return None;
      }
      if |queue| == 0 || queue[0] == "" {
        return Some(false);
      }
      var childType := queue[0];
      queue := queue[1..];
      var cts := rel.childTypes(childType);
      if nodeType in cts {
        return Some(true);
      }
      queue := queue + cts;
      n := n - 1;
    }
  }

  /** `path` is a chain of child types: each element is a child type of the one before. */
  ghost predicate Chain(rel: Relations, path: seq<string>)
  {
    |path| >= 1 && forall i | 0 <= i < |path| - 1 :: path[i + 1] in rel.childTypes(path[i])
  }

  /** Every type in the queue is reached from `root` through a chain. */
  ghost predicate FromRoot(rel: Relations, root: string, queue: seq<string>)
  {
    forall i | 0 <= i < |queue| :: exists path :: Chain(rel, path) && path[0] == root && path[|path| - 1] == queue[i]
  }

  /** A successful search found a descendant type of the root that has `nodeType` as a
      child type. */
  lemma {:induction false} SearchSound(rel: Relations, root: string, queue: seq<string>, nodeType: string, fuel: nat)
    requires FromRoot(rel, root, queue)
    requires Search(rel, queue, nodeType, fuel) == Some(true)
    ensures exists path :: Chain(rel, path) && path[0] == root && nodeType in rel.childTypes(path[|path| - 1])
    decreases fuel
  {
    var t := queue[0];
    var p :| Chain(rel, p) && p[0] == root && p[|p| - 1] == t;
    if nodeType !in rel.childTypes(t) {
      var cts := rel.childTypes(t);
      var next := queue[1..] + cts;
      forall i | 0 <= i < |next| ensures exists path :: Chain(rel, path) && path[0] == root && path[|path| - 1] == next[i] {
        if i < |queue| - 1 {
          assert next[i] == queue[i + 1];
        } else {
          var q := p + [next[i]];
          assert q[|q| - 1] == next[i];
          assert Chain(rel, q);
        }
      }
      SearchSound(rel, root, next, nodeType, fuel - 1);
    }
  }

  /** The check's answer `true` means `nodeType` is a child type of the perspective's type
      or of one of its descendant types. */
  lemma CheckSound(rel: Relations, perspectiveId: string, nodeType: string, fuel: nat)
    requires Search(rel, [Head(perspectiveId, '.')], nodeType, fuel) == Some(true)
    ensures exists path :: Chain(rel, path) && path[0] == Head(perspectiveId, '.') && nodeType in rel.childTypes(path[|path| - 1])
  {
    var root := Head(perspectiveId, '.');
    assert Chain(rel, [root]);
    SearchSound(rel, root, [root], nodeType, fuel);
  }

  /** When `nodeType` is a child type of the perspective's type or of one of its descendant
      types, and no child type is empty, the check never answers `false`: it finds it, or
      (with too little fuel) does not settle. */
  lemma CheckComplete(rel: Relations, perspectiveId: string, nodeType: string, fuel: nat)
    requires Head(perspectiveId, '.') != ""
    requires forall t :: "" !in rel.childTypes(t)
    requires exists path :: Chain(rel, path) && path[0] == Head(perspectiveId, '.') && nodeType in rel.childTypes(path[|path| - 1])
    ensures Search(rel, [Head(perspectiveId, '.')], nodeType, fuel) != Some(false)
  {
    var root := Head(perspectiveId, '.');
    var path :| Chain(rel, path) && path[0] == root && nodeType in rel.childTypes(path[|path| - 1]);
    SearchComplete(rel, [root], nodeType, fuel, 0, path);
  }

  /** A queue without empty types holding, at `i`, the start of a chain to a type with
      `nodeType` as a child type never leads the search to `false`. */
  lemma {:induction false} SearchComplete(rel: Relations, queue: seq<string>, nodeType: string, fuel: nat, i: nat, path: seq<string>)
    requires forall t :: "" !in rel.childTypes(t)
    requires forall j | 0 <= j < |queue| :: queue[j] != ""
    requires i < |queue| && Chain(rel, path) && path[0] == queue[i] && nodeType in rel.childTypes(path[|path| - 1])
    ensures Search(rel, queue, nodeType, fuel) != Some(false)
    decreases fuel
  {
    if fuel > 0 && nodeType !in rel.childTypes(queue[0]) {
      var cts := rel.childTypes(queue[0]);
      var next := queue[1..] + cts;
      forall j | 0 <= j < |next| ensures next[j] != "" {
        if j >= |queue| - 1 {
          assert next[j] == cts[j - (|queue| - 1)];
        }
      }
      if i > 0 {
        assert next[i - 1] == queue[i];
        SearchComplete(rel, next, nodeType, fuel - 1, i - 1, path);
      } else {
        assert |path| > 1;
        assert path[1] in cts;
        var k :| 0 <= k < |cts| && cts[k] == path[1];
        var rest := path[1..];
        assert Chain(rel, rest) by {
          forall m | 0 <= m < |rest| - 1 ensures rest[m + 1] in rel.childTypes(rest[m]) {
            assert rest[m] == path[m + 1] && rest[m + 1] == path[m + 2];
          }
        }
        assert next[|queue| - 1 + k] == path[1];
        SearchComplete(rel, next, nodeType, fuel - 1, |queue| - 1 + k, rest);
      }
    }
  }

  /** More fuel does not change a settled answer. */
  lemma {:induction false} SearchFuel(rel: Relations, queue: seq<string>, nodeType: string, fuel: nat, more: nat)
    requires fuel <= more && Search(rel, queue, nodeType, fuel).Some?
    ensures Search(rel, queue, nodeType, more) == Search(rel, queue, nodeType, fuel)
    decreases fuel
  {
    if |queue| > 0 && queue[0] != "" && nodeType !in rel.childTypes(queue[0]) {
      SearchFuel(rel, queue[1..] + rel.childTypes(queue[0]), nodeType, fuel - 1, more - 1);
    }
  }

  /** A type that is its only child type, and not `nodeType`, keeps the search going
      forever. */
  lemma {:induction false} SearchCycle(rel: Relations, t: string, nodeType: string, fuel: nat)
    requires t != "" && rel.childTypes(t) == [t] && nodeType != t
    ensures Search(rel, [t], nodeType, fuel) == None
    decreases fuel
  {
    if fuel > 0 {
      assert [t][1..] + [t] == [t];
      SearchCycle(rel, t, nodeType, fuel - 1);
    }
  }

  // ---------------------------------------------------------------------------
  // Clearing an entity's children (`doRemoveNodeFromPerspective`)

  /** The `deleteAll` calls made for the (non-empty) child types of the entity, in order. */
  function ChildCalls(rel: Relations, nodeType: string, nodeName: string, cts: seq<string>): (r: seq<Call>)
    ensures |r| <= |cts|
    ensures forall c | c in r :: c.deleteAll && !c.create && c.sourceType == nodeType && c.sourceName == nodeName && c.targetName == ""
    ensures forall c | c in r :: c.targetType in cts && c.targetType != ""
  {
    if |cts| == 0 then []
    else
      var p := cts[|cts| - 1];
      ChildCalls(rel, nodeType, nodeName, cts[..|cts| - 1]) + (if p != "" then [Call(nodeType, nodeName, p, "", false, true)] else [])
  }

  /** The loop over the child types, on a fresh edit list. */
  method ClearChildren(rel: Relations, doc: Doc, nodeType: string, nodeName: string) returns (out: Option<seq<Edit>>)
    ensures out == RunCalls(rel, doc, ChildCalls(rel, nodeType, nodeName, rel.childTypes(nodeType)), [])
  {
    var cts := rel.childTypes(nodeType);
    var es: seq<Edit> := [];
    var i := 0;
    while i < |cts|
      invariant 0 <= i <= |cts|
      invariant RunCalls(rel, doc, ChildCalls(rel, nodeType, nodeName, cts[..i]), []) == Some(es)
    {
      var r := ClearChild(rel, doc, nodeType, nodeName, cts, i, es);
      if r.None? {
        ChildThrowSticks(rel, doc, nodeType, nodeName, cts, i + 1);
        return None;
      }
      es := r.value;
      i := i + 1;
    }
    assert cts[..i] == cts;
    out := Some(es);
  }

  /** The body of that loop for the child type at `i`. */
  method ClearChild(rel: Relations, doc: Doc, nodeType: string, nodeName: string, cts: seq<string>, i: nat, es: seq<Edit>)
    returns (r: Option<seq<Edit>>)
    requires i < |cts| && RunCalls(rel, doc, ChildCalls(rel, nodeType, nodeName, cts[..i]), []) == Some(es)
    ensures r == RunCalls(rel, doc, ChildCalls(rel, nodeType, nodeName, cts[..i + 1]), [])
  {
    ghost var calls := ChildCalls(rel, nodeType, nodeName, cts[..i]);
    ChildCallsNext(rel, nodeType, nodeName, cts, i);
    var p := cts[i];
    if p != "" {
      r := RunCall(rel, doc, calls, [], es, Call(nodeType, nodeName, p, "", false, true));
    } else {
      assert calls + [] == calls;
      r := Some(es);
    }
  }

  lemma ChildCallsNext(rel: Relations, nodeType: string, nodeName: string, cts: seq<string>, i: nat)
    requires i < |cts|
    ensures ChildCalls(rel, nodeType, nodeName, cts[..i + 1])
         == ChildCalls(rel, nodeType, nodeName, cts[..i]) + (if cts[i] != "" then [Call(nodeType, nodeName, cts[i], "", false, true)] else [])
  {
    assert cts[..i + 1][..i] == cts[..i];
  }

  /** A throw among the calls for the first `k` child types is a throw of the whole loop. */
  lemma ChildThrowSticks(rel: Relations, doc: Doc, nodeType: string, nodeName: string, cts: seq<string>, k: nat)
    requires k <= |cts|
    requires RunCalls(rel, doc, ChildCalls(rel, nodeType, nodeName, cts[..k]), []).None?
    ensures RunCalls(rel, doc, ChildCalls(rel, nodeType, nodeName, cts), []).None?
  {
    ChildCallsPrefix(rel, nodeType, nodeName, cts, k);
    ThrowSticks(rel, doc, ChildCalls(rel, nodeType, nodeName, cts[..k]), ChildCalls(rel, nodeType, nodeName, cts), []);
  }

  lemma {:induction false} ChildCallsPrefix(rel: Relations, nodeType: string, nodeName: string, cts: seq<string>, k: nat)
    requires k <= |cts|
    ensures ChildCalls(rel, nodeType, nodeName, cts[..k]) <= ChildCalls(rel, nodeType, nodeName, cts)
    decreases |cts| - k
  {
    if k < |cts| {
      ChildCallsPrefix(rel, nodeType, nodeName, cts, k + 1);
      assert cts[..k + 1][..k] == cts[..k];
    } else {
      assert cts[..k] == cts;
    }
  }

  /** A child type the entity has no property for makes the removal throw: the list of a
      missing property is read for its length. */
  lemma ChildWithoutPropertyThrows(rel: Relations, doc: Doc, nodeType: string, nodeName: string, p: string)
    requires p != "" && p in rel.childTypes(nodeType)
    requires PropList(doc, nodeType, nodeName, p).None?
    ensures RunCalls(rel, doc, ChildCalls(rel, nodeType, nodeName, rel.childTypes(nodeType)), []).None?
  {
    var cts := rel.childTypes(nodeType);
    var k :| 0 <= k < |cts| && cts[k] == p;
    ChildCallThrows(rel, doc, nodeType, nodeName, cts[..k + 1], p);
    ChildCallsPrefix(rel, nodeType, nodeName, cts, k + 1);
    ThrowSticks(rel, doc, ChildCalls(rel, nodeType, nodeName, cts[..k + 1]), ChildCalls(rel, nodeType, nodeName, cts), []);
  }

  lemma ChildCallThrows(rel: Relations, doc: Doc, nodeType: string, nodeName: string, cts: seq<string>, p: string)
    requires |cts| > 0 && cts[|cts| - 1] == p && p != ""
    requires PropList(doc, nodeType, nodeName, p).None?
    ensures RunCalls(rel, doc, ChildCalls(rel, nodeType, nodeName, cts), []).None?
  {
    var before := ChildCalls(rel, nodeType, nodeName, cts[..|cts| - 1]);
    var c := Call(nodeType, nodeName, p, "", false, true);
    assert ChildCalls(rel, nodeType, nodeName, cts) == before + [c];
    RunCallsLast(rel, doc, before, c, []);
    if RunCalls(rel, doc, before, []).Some? {
      DeleteAllMissingThrows(rel, doc, nodeType, nodeName, p, RunCalls(rel, doc, before, []).value);
    }
  }

  // ---------------------------------------------------------------------------
  // The editor provider

  class ConfigEditor {
    /** Perspective uri -> its cache. */
    var cache: map<string, CacheEntry>
    /** The snapshots of the cache written to the workspace state, oldest first. */
    var saved: seq<map<string, CacheEntry>>
    /** Document uri -> perspective id -> the panels showing it. */
    var panels: map<string, map<string, seq<PanelId>>>

    /** The provider starts from the cache kept in the workspace state. */
    constructor (stored: map<string, CacheEntry>)
      ensures cache == stored && saved == [] && panels == map[]
    {
      cache := stored;
      saved := [];
      panels := map[];
    }

    /** `clearCache`: the cache is emptied and the empty cache written. */
    method ClearCache()
      modifies this
      ensures cache == map[] && saved == old(saved) + [map[]] && panels == old(panels)
    {
      cache := map[];
      saved := saved + [cache];
    }

    /** `getCache`: the perspective's entry, created empty when missing. */
    method GetCache(key: string) returns (e: CacheEntry)
      modifies this`cache
      ensures e == EntryOf(old(cache), key)
      ensures cache == old(cache)[key := e]
    {
      e := EntryOf(cache, key);
      cache := cache[key := e];
    }

    /** `getPositionsCache`: the perspective's positions; a missing entry is created with
        empty positions. */
    method GetPositionsCache(key: string) returns (pos: map<string, Point>)
      modifies this
      ensures pos == PositionsOf(PositionsEntry(old(cache), key))
      ensures cache == old(cache)[key := PositionsEntry(old(cache), key)] && saved == old(saved) && panels == old(panels)
    {
      var e := PositionsEntry(cache, key);
      cache := cache[key := e];
      pos := PositionsOf(e);
    }

    /** `setPositions`: the given entries overwrite theirs, the other positions stay; the
        cache is written when at least one entry was given. */
    method SetPositions(key: string, positions: Option<seq<(string, Point)>>)
      modifies this
      ensures var e := PositionsEntry(old(cache), key);
              var modified := positions.Some? && |positions.value| > 0;
              && cache == old(cache)[key := if modified then e.(positions := Some(Overwrite(PositionsOf(e), positions.value))) else e]
              && saved == (if modified then old(saved) + [cache] else old(saved))
              && panels == old(panels)
    {
      var pos := GetPositionsCache(key);
      var modified := false;
      if positions.Some? {
        var entries := positions.value;
        var i := 0;
        while i < |entries|
          invariant 0 <= i <= |entries|
          invariant modified <==> i > 0
          invariant pos == Overwrite(PositionsOf(PositionsEntry(old(cache), key)), entries[..i])
        {
          assert entries[..i + 1][..i] == entries[..i];
          modified := true;
          pos := pos[entries[i].0 := entries[i].1];
          i := i + 1;
        }
        assert entries[..i] == entries;
      }
      if modified {
        cache := cache[key := cache[key].(positions := Some(pos))];
        saved := saved + [cache];
      }
    }

    /** `setExtraEntitiesInCache`: the value is replaced, and written, when it differs. */
    method SetExtraEntitiesInCache(key: string, extra: Option<string>)
      modifies this
      ensures var e := EntryOf(old(cache), key);
              && cache == old(cache)[key := e.(extraEntities := extra)]
              && saved == (if extra != e.extraEntities then old(saved) + [cache] else old(saved))
              && panels == old(panels)
    {
      var e := GetCache(key);
      if extra != e.extraEntities {
        cache := cache[key := e.(extraEntities := extra)];
        saved := saved + [cache];
      }
    }

    /** `updateExtraEntitiesInCache`. */
    method UpdateExtraEntitiesInCache(key: string, extra: string)
      modifies this`cache, this`saved
      ensures extra == "" ==> cache == old(cache) && saved == old(saved)
      ensures extra != "" ==>
        var e := EntryOf(old(cache), key);
        && cache == old(cache)[key := e.(extraEntities := UpdateExtras(e.extraEntities, extra))]
        && saved == (if UpdateWrites(e.extraEntities, extra) then old(saved) + [cache] else old(saved))
    {
      if extra == "" {
        return;
      }
      var e := GetCache(key);
      var modified := false;
      var value := e.extraEntities;
      if Present(e.extraEntities) {
        var ee := Split(e.extraEntities.value, ';');
        var len := |ee|;
        ee := PushMissing(ee, Split(extra, ';'));
        if len < |ee| {
          value := Some(Join(ee, ";"));
          modified := true;
        }
      } else {
        value := Some(extra);
        modified := true;
      }
      assert value == UpdateExtras(e.extraEntities, extra);
      assert modified == UpdateWrites(e.extraEntities, extra);
      if modified {
        cache := cache[key := e.(extraEntities := value)];
        saved := saved + [cache];
      } else {
        assert cache == old(cache)[key := e.(extraEntities := value)];
      }
    }

    /** `removeExtraEntitiesInCache`. */
    method RemoveExtraEntitiesInCache(key: string, extra: string)
      modifies this`cache, this`saved
      ensures extra == "" ==> cache == old(cache) && saved == old(saved)
      ensures extra != "" ==>
        var e := EntryOf(old(cache), key);
        && cache == old(cache)[key := e.(extraEntities := RemoveExtras(e.extraEntities, extra))]
        && saved == (if RemoveWrites(e.extraEntities, extra) then old(saved) + [cache] else old(saved))
    {
      if extra == "" {
        return;
      }
      var e := GetCache(key);
      var modified := false;
      var value := e.extraEntities;
      if Present(e.extraEntities) {
        var ee := Split(e.extraEntities.value, ';');
        var len := |ee|;
        ee := SpliceEach(ee, Split(extra, ';'));
        if len > |ee| {
          value := if |ee| > 0 then Some(Join(ee, ";")) else None;
          modified := true;
        }
      }
      assert value == RemoveExtras(e.extraEntities, extra);
      assert modified == RemoveWrites(e.extraEntities, extra);
      if modified {
        cache := cache[key := e.(extraEntities := value)];
        saved := saved + [cache];
      } else {
        assert cache == old(cache)[key := e.(extraEntities := value)];
      }
    }

    /** `updateElement`: in every document's registry the panels of `nodeType.oldNodeName`
        move to `nodeType.nodeName`. */
    method UpdateElement(nodeType: string, oldNodeName: string, nodeName: string)
      modifies this`panels
      ensures panels == map u | u in old(panels) :: Remap(old(panels)[u], nodeType + "." + oldNodeName, nodeType + "." + nodeName)
    {
      panels := RemapAll(panels, nodeType + "." + oldNodeName, nodeType + "." + nodeName);
    }

    /** `createNode`: the new entity is linked under the perspective's entity when its type
        is a child type there and that entity exists, or added to the perspective's extra
        entities otherwise; its section is appended when the document lacks it. */
    method CreateNode(rel: Relations, doc: Doc, perspectiveId: string, perspKey: string, nodeType: string, nodeName: string,
                      hostAccepts: bool)
      returns (res: bool, sent: seq<Edit>)
      modifies this
      ensures var pt := Head(perspectiveId, '.');
              var pn := Second(perspectiveId, '.');
              var linked := nodeType in rel.childTypes(pt) && pn.Some? && Find(doc, pt, pn.value).Some?;
              var linkEdits := if linked then CreateOrDeleteLink(rel, doc, pt, pn.value, nodeType, nodeName, true, false, []).edits else [];
              var e := EntryOf(old(cache), perspKey);
              var id := nodeType + "." + nodeName;
              && sent == linkEdits + (if Find(doc, nodeType, nodeName).None? then [AppendSection(nodeType, nodeName, DefaultContent)] else [])
              && res == ApplyEdits(sent, hostAccepts)
              && (linked ==> cache == old(cache) && saved == old(saved))
              && (!linked ==> cache == old(cache)[perspKey := e.(extraEntities := UpdateExtras(e.extraEntities, id))]
                              && saved == (if UpdateWrites(e.extraEntities, id) then old(saved) + [cache] else old(saved)))
              && panels == old(panels)
    {
      var pt := Head(perspectiveId, '.');
      var pn := Second(perspectiveId, '.');
      var edits: seq<Edit> := [];
      if nodeType in rel.childTypes(pt) && pn.Some? && Find(doc, pt, pn.value).Some? {
        var out := CreateOrDeleteLink(rel, doc, pt, pn.value, nodeType, nodeName, true, false, edits);
        edits := out.edits;
      } else {
        UpdateExtraEntitiesInCache(perspKey, nodeType + "." + nodeName);
      }
      if Find(doc, nodeType, nodeName).None? {
        edits := edits + [AppendSection(nodeType, nodeName, DefaultContent)];
      }
      sent := edits;
      res := ApplyEdits(sent, hostAccepts);
    }

    /** `doRemoveNodeFromPerspective`: every child list of the entity is cleared and every
        reference to it removed; once the host accepts the edits the entity leaves the
        perspective's extra entities, otherwise the view is refreshed. */
    method RemoveNodeFromPerspective(rel: Relations, doc: Doc, perspKey: string, nodeType: string, nodeName: string,
                                     hostAccepts: bool)
      returns (out: Reply, sent: seq<Edit>, refreshed: bool)
      modifies this
      ensures Find(doc, nodeType, nodeName).None? ==>
        out == Resolved(false) && sent == [] && !refreshed && cache == old(cache) && saved == old(saved)
      ensures Find(doc, nodeType, nodeName).Some? ==>
        var run := RunCalls(rel, doc, ChildCalls(rel, nodeType, nodeName, rel.childTypes(nodeType))
                                      + RemovalCalls(rel, doc, nodeType, nodeName, rel.parentTypes(nodeType)), []);
        var e := EntryOf(old(cache), perspKey);
        var id := nodeType + "." + nodeName;
        && (run.None? ==> out == Rejected && sent == [] && !refreshed && cache == old(cache) && saved == old(saved))
        && (run.Some? ==> sent == run.value && out == Resolved(ApplyEdits(sent, hostAccepts))
                          && refreshed == !ApplyEdits(sent, hostAccepts)
                          && (!ApplyEdits(sent, hostAccepts) ==> cache == old(cache) && saved == old(saved))
                          && (ApplyEdits(sent, hostAccepts) ==>
                                cache == old(cache)[perspKey := e.(extraEntities := RemoveExtras(e.extraEntities, id))]
                                && saved == (if RemoveWrites(e.extraEntities, id) then old(saved) + [cache] else old(saved))))
      ensures panels == old(panels)
    {
      if Find(doc, nodeType, nodeName).None? {
        return Resolved(false), [], false;
      }
      ghost var first := ChildCalls(rel, nodeType, nodeName, rel.childTypes(nodeType));
      ghost var second := RemovalCalls(rel, doc, nodeType, nodeName, rel.parentTypes(nodeType));
      RunCallsAppend(rel, doc, first, second, []);
      var cleared := ClearChildren(rel, doc, nodeType, nodeName);
      if cleared.None? {
        return Rejected, [], false;
      }
      var removed := RemoveNodeLinks(rel, doc, nodeType, nodeName, cleared.value);
      if removed.None? {
        return Rejected, [], false;
      }
      sent := removed.value;
      var ret := ApplyEdits(sent, hostAccepts);
      if ret {
        RemoveExtraEntitiesInCache(perspKey, nodeType + "." + nodeName);
      }
      out := Resolved(ret);
      refreshed := !ret;
    }
  }
}
