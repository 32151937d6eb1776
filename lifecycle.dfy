/** Edits of the configuration made when an entity is deleted, duplicated or moved in and out
    of a sequence, the removal of every reference to an entity from its parents, and the
    default name proposed for a new entity (src/editors/ConfigEditor.ts). */
module Lifecycle {
  import opened Js
  import opened Names
  import opened Links

  /** The settled value of an async command: a rejected promise, `undefined`, or a boolean. */
  datatype Reply = Rejected | Undefined | Resolved(value: bool)

  /** `applyEdits`: an empty list is not sent; otherwise the host's answer. */
  function ApplyEdits(edits: seq<Edit>, hostAccepts: bool): (r: bool)
    ensures r ==> |edits| > 0
    ensures |edits| > 0 ==> r == hostAccepts
  {
    if |edits| > 0 then hostAccepts else false
  }

  // ---------------------------------------------------------------------------
  // removeNodeLinks

  /** `getSymbolArrayValue(doc, parent, property)`: the list, empty when missing. */
  function ArrayValue(parent: Entity, property: string): seq<string>
  {
    if property in parent.props then parent.props[property] else []
  }

  /** `parent` lists the entity `nodeName` under a (non-empty) `property`. */
  predicate References(rel: Relations, parent: Entity, property: string, nodeName: string)
  {
    property != "" && exists x | x in ArrayValue(parent, property) :: rel.unsuffixed(x) == nodeName
  }

  /** The calls made for one parent: delete the link through its input property (recorded
      with the removed entity as the source), then through its output property. */
  function ParentCalls(rel: Relations, nodeType: string, nodeName: string, parentType: string, parent: Entity): (r: seq<Call>)
    ensures |r| <= 2
    ensures forall c | c in r :: !c.create && !c.deleteAll
  {
    var pp := rel.propsForType(parentType, nodeType);
    (if References(rel, parent, pp.0, nodeName) then [Call(nodeType, nodeName, parentType, parent.name, false, false)] else [])
    + (if References(rel, parent, pp.1, nodeName) then [Call(parentType, parent.name, nodeType, nodeName, false, false)] else [])
  }

  /** The calls made for the entities of one parent type, in document order. */
  function TypeCalls(rel: Relations, nodeType: string, nodeName: string, parentType: string, parents: seq<Entity>): (r: seq<Call>)
    ensures forall c | c in r :: !c.create && !c.deleteAll
    // each call removes a link between the node and a parent of the type, in one direction
    // or the other, and a parent gives at most one call per direction
    ensures forall c | c in r ::
      || (c.sourceType == nodeType && c.sourceName == nodeName && c.targetType == parentType)
      || (c.sourceType == parentType && c.targetType == nodeType && c.targetName == nodeName)
    ensures |r| <= 2 * |parents|
  {
    if |parents| == 0 then []
    else TypeCalls(rel, nodeType, nodeName, parentType, parents[..|parents| - 1])
         + ParentCalls(rel, nodeType, nodeName, parentType, parents[|parents| - 1])
  }

  /** The calls made for the parent types `pts`, in order. */
  function RemovalCalls(rel: Relations, doc: Doc, nodeType: string, nodeName: string, pts: seq<string>): (r: seq<Call>)
    ensures forall c | c in r :: !c.create && !c.deleteAll
  {
    if |pts| == 0 then []
    else
      var pt := pts[|pts| - 1];
      RemovalCalls(rel, doc, nodeType, nodeName, pts[..|pts| - 1])
      + (if pt in doc then TypeCalls(rel, nodeType, nodeName, pt, doc[pt]) else [])
  }

  /** Every call made concerns a parent that lists the entity: a delete from the entity to
      a parent that lists it as an input, or from a parent that lists it as an output. */
  lemma {:induction false} RemovalCallsReferenced(rel: Relations, doc: Doc, nodeType: string, nodeName: string, pts: seq<string>, c: Call)
    requires c in RemovalCalls(rel, doc, nodeType, nodeName, pts)
    ensures exists i, j | 0 <= i < |pts| && pts[i] in doc && 0 <= j < |doc[pts[i]]| ::
      var parent := doc[pts[i]][j];
      var pp := rel.propsForType(pts[i], nodeType);
      || (c == Call(nodeType, nodeName, pts[i], parent.name, false, false) && References(rel, parent, pp.0, nodeName))
      || (c == Call(pts[i], parent.name, nodeType, nodeName, false, false) && References(rel, parent, pp.1, nodeName))
  {
    var k := |pts| - 1;
    var pt := pts[k];
    var before := RemovalCalls(rel, doc, nodeType, nodeName, pts[..k]);
    if c in before {
      RemovalCallsReferenced(rel, doc, nodeType, nodeName, pts[..k], c);
      var i, j :| 0 <= i < k && pts[..k][i] in doc && 0 <= j < |doc[pts[..k][i]]| &&
        var parent := doc[pts[..k][i]][j];
        var pp := rel.propsForType(pts[..k][i], nodeType);
        || (c == Call(nodeType, nodeName, pts[..k][i], parent.name, false, false) && References(rel, parent, pp.0, nodeName))
        || (c == Call(pts[..k][i], parent.name, nodeType, nodeName, false, false) && References(rel, parent, pp.1, nodeName));
      assert pts[..k][i] == pts[i];
    } else {
      assert pt in doc && c in TypeCalls(rel, nodeType, nodeName, pt, doc[pt]);
      var j := TypeCallsReferenced(rel, nodeType, nodeName, pt, doc[pt], c);
    }
  }

  lemma {:induction false} TypeCallsReferenced(rel: Relations, nodeType: string, nodeName: string, pt: string, parents: seq<Entity>, c: Call)
    returns (j: nat)
    requires c in TypeCalls(rel, nodeType, nodeName, pt, parents)
    ensures j < |parents|
    ensures var parent := parents[j];
      var pp := rel.propsForType(pt, nodeType);
      || (c == Call(nodeType, nodeName, pt, parent.name, false, false) && References(rel, parent, pp.0, nodeName))
      || (c == Call(pt, parent.name, nodeType, nodeName, false, false) && References(rel, parent, pp.1, nodeName))
  {
    var k := |parents| - 1;
    if c in TypeCalls(rel, nodeType, nodeName, pt, parents[..k]) {
      j := TypeCallsReferenced(rel, nodeType, nodeName, pt, parents[..k], c);
      assert parents[..k][j] == parents[j];
    } else {
      j := k;
    }
  }

  /** Conversely, every parent that lists the entity gets its delete: through its input
      property with the entity as the source, and through its output property with the
      parent as the source. */
  lemma {:induction false} RemovalCallsComplete(rel: Relations, doc: Doc, nodeType: string, nodeName: string, pts: seq<string>, i: nat, j: nat)
    requires i < |pts| && pts[i] in doc && j < |doc[pts[i]]|
    ensures var parent := doc[pts[i]][j];
      var pp := rel.propsForType(pts[i], nodeType);
      var calls := RemovalCalls(rel, doc, nodeType, nodeName, pts);
      && (References(rel, parent, pp.0, nodeName) ==> Call(nodeType, nodeName, pts[i], parent.name, false, false) in calls)
      && (References(rel, parent, pp.1, nodeName) ==> Call(pts[i], parent.name, nodeType, nodeName, false, false) in calls)
  {
    var k := |pts| - 1;
    if i < k {
      assert pts[..k][i] == pts[i];
      RemovalCallsComplete(rel, doc, nodeType, nodeName, pts[..k], i, j);
    } else {
      TypeCallsComplete(rel, nodeType, nodeName, pts[k], doc[pts[k]], j);
    }
  }

  lemma {:induction false} TypeCallsComplete(rel: Relations, nodeType: string, nodeName: string, pt: string, parents: seq<Entity>, j: nat)
    requires j < |parents|
    ensures var parent := parents[j];
      var pp := rel.propsForType(pt, nodeType);
      var calls := TypeCalls(rel, nodeType, nodeName, pt, parents);
      && (References(rel, parent, pp.0, nodeName) ==> Call(nodeType, nodeName, pt, parent.name, false, false) in calls)
      && (References(rel, parent, pp.1, nodeName) ==> Call(pt, parent.name, nodeType, nodeName, false, false) in calls)
  {
    var k := |parents| - 1;
    if j < k {
      assert parents[..k][j] == parents[j];
      TypeCallsComplete(rel, nodeType, nodeName, pt, parents[..k], j);
    }
  }

  /** A reference-free document gives no calls; the incoming edits come back unchanged. */
  lemma {:induction false} NoReferencesNoCalls(rel: Relations, doc: Doc, nodeType: string, nodeName: string, pts: seq<string>)
    requires forall pt, parent | pt in doc && parent in doc[pt] ::
      var pp := rel.propsForType(pt, nodeType);
      !References(rel, parent, pp.0, nodeName) && !References(rel, parent, pp.1, nodeName)
    ensures RemovalCalls(rel, doc, nodeType, nodeName, pts) == []
  {
    if |pts| > 0 {
      NoReferencesNoCalls(rel, doc, nodeType, nodeName, pts[..|pts| - 1]);
      var pt := pts[|pts| - 1];
      if pt in doc {
        NoReferencesTypeCalls(rel, nodeType, nodeName, pt, doc[pt]);
      }
    }
  }

  lemma {:induction false} NoReferencesTypeCalls(rel: Relations, nodeType: string, nodeName: string, pt: string, parents: seq<Entity>)
    requires forall parent | parent in parents ::
      var pp := rel.propsForType(pt, nodeType);
      !References(rel, parent, pp.0, nodeName) && !References(rel, parent, pp.1, nodeName)
    ensures TypeCalls(rel, nodeType, nodeName, pt, parents) == []
  {
    if |parents| > 0 {
      NoReferencesTypeCalls(rel, nodeType, nodeName, pt, parents[..|parents| - 1]);
      assert parents[|parents| - 1] in parents;
    }
  }

  /** One call of `createOrDeleteLink` on the shared edit list. */
  method RunCall(rel: Relations, doc: Doc, ghost before: seq<Call>, ghost edits: seq<Edit>, es: seq<Edit>, c: Call)
    returns (r: Option<seq<Edit>>)
    requires RunCalls(rel, doc, before, edits) == Some(es)
    ensures r == RunCalls(rel, doc, before + [c], edits)
  {
    var out := CreateOrDeleteLink(rel, doc, c.sourceType, c.sourceName, c.targetType, c.targetName, c.create, c.deleteAll, es);
    r := if out.LinkThrown? then None else Some(out.edits);
    assert (before + [c])[..|before + [c]| - 1] == before;
  }

  /** `removeNodeLinks`: every parent listing the entity loses that reference, the edits
      accumulating on `edits`; `None` when one of the calls throws. */
  method RemoveNodeLinks(rel: Relations, doc: Doc, nodeType: string, nodeName: string, edits: seq<Edit>)
    returns (out: Option<seq<Edit>>)
    ensures out == RunCalls(rel, doc, RemovalCalls(rel, doc, nodeType, nodeName, rel.parentTypes(nodeType)), edits)
  {
    var pts := rel.parentTypes(nodeType);
    var es := edits;
    ghost var calls: seq<Call> := [];
    var i := 0;
    while i < |pts|
      invariant 0 <= i <= |pts|
      invariant calls == RemovalCalls(rel, doc, nodeType, nodeName, pts[..i])
      invariant RunCalls(rel, doc, calls, edits) == Some(es)
    {
      var pt := pts[i];
      RemovalCallsNext(rel, doc, nodeType, nodeName, pts, i);
      if pt in doc {
        var r := RemoveFromParents(rel, doc, nodeType, nodeName, pt, doc[pt], calls, edits, es);
        calls := calls + TypeCalls(rel, nodeType, nodeName, pt, doc[pt]);
        if r.None? {
          RemovalThrowSticks(rel, doc, nodeType, nodeName, pts, i + 1, edits);
          return None;
        }
        es := r.value;
      }
      i := i + 1;
    }
    assert pts[..i] == pts;
    out := Some(es);
  }

  lemma RemovalCallsNext(rel: Relations, doc: Doc, nodeType: string, nodeName: string, pts: seq<string>, i: nat)
    requires i < |pts|
    ensures RemovalCalls(rel, doc, nodeType, nodeName, pts[..i + 1])
         == RemovalCalls(rel, doc, nodeType, nodeName, pts[..i])
            + (if pts[i] in doc then TypeCalls(rel, nodeType, nodeName, pts[i], doc[pts[i]]) else [])
  {
    assert pts[..i + 1][..i] == pts[..i];
  }

  /** A throw among the calls for the first `k` parent types is a throw of the whole removal. */
  lemma RemovalThrowSticks(rel: Relations, doc: Doc, nodeType: string, nodeName: string, pts: seq<string>, k: nat, edits: seq<Edit>)
    requires k <= |pts|
    requires RunCalls(rel, doc, RemovalCalls(rel, doc, nodeType, nodeName, pts[..k]), edits).None?
    ensures RunCalls(rel, doc, RemovalCalls(rel, doc, nodeType, nodeName, pts), edits).None?
  {
    RemovalCallsMonotone(rel, doc, nodeType, nodeName, pts, k);
    ThrowSticks(rel, doc, RemovalCalls(rel, doc, nodeType, nodeName, pts[..k]), RemovalCalls(rel, doc, nodeType, nodeName, pts), edits);
  }

  /** The loop over the entities of one parent type. */
  method RemoveFromParents(rel: Relations, doc: Doc, nodeType: string, nodeName: string, pt: string, parents: seq<Entity>,
                           ghost base: seq<Call>, ghost edits: seq<Edit>, es: seq<Edit>)
    returns (out: Option<seq<Edit>>)
    requires RunCalls(rel, doc, base, edits) == Some(es)
    ensures out == RunCalls(rel, doc, base + TypeCalls(rel, nodeType, nodeName, pt, parents), edits)
  {
    var cur := es;
    var j := 0;
    assert base + TypeCalls(rel, nodeType, nodeName, pt, parents[..0]) == base;
    while j < |parents|
      invariant 0 <= j <= |parents|
      invariant RunCalls(rel, doc, base + TypeCalls(rel, nodeType, nodeName, pt, parents[..j]), edits) == Some(cur)
    {
      var r := RemoveFromNext(rel, doc, nodeType, nodeName, pt, parents, j, base, edits, cur);
      if r.None? {
        TypeCallsThrow(rel, doc, nodeType, nodeName, pt, parents, base, j + 1, edits);
        return None;
      }
      cur := r.value;
      j := j + 1;
    }
    assert parents[..j] == parents;
    out := Some(cur);
  }

  /** The body of that loop: the checks for the parent at `j`. */
  method RemoveFromNext(rel: Relations, doc: Doc, nodeType: string, nodeName: string, pt: string, parents: seq<Entity>, j: nat,
                        ghost base: seq<Call>, ghost edits: seq<Edit>, es: seq<Edit>)
    returns (out: Option<seq<Edit>>)
    requires j < |parents|
    requires RunCalls(rel, doc, base + TypeCalls(rel, nodeType, nodeName, pt, parents[..j]), edits) == Some(es)
    ensures out == RunCalls(rel, doc, base + TypeCalls(rel, nodeType, nodeName, pt, parents[..j + 1]), edits)
  {
    TypeCallsNext(rel, nodeType, nodeName, pt, parents, base, j);
    out := RemoveFromParent(rel, doc, nodeType, nodeName, pt, parents[j], base + TypeCalls(rel, nodeType, nodeName, pt, parents[..j]), edits, es);
  }

  /** The two property checks for one parent. */
  method RemoveFromParent(rel: Relations, doc: Doc, nodeType: string, nodeName: string, pt: string, parent: Entity,
                          ghost base: seq<Call>, ghost edits: seq<Edit>, es: seq<Edit>)
    returns (out: Option<seq<Edit>>)
    requires RunCalls(rel, doc, base, edits) == Some(es)
    ensures out == RunCalls(rel, doc, base + ParentCalls(rel, nodeType, nodeName, pt, parent), edits)
  {
    var pp := rel.propsForType(pt, nodeType);
    var c0 := Call(nodeType, nodeName, pt, parent.name, false, false);
    var c1 := Call(pt, parent.name, nodeType, nodeName, false, false);
    ghost var first := if References(rel, parent, pp.0, nodeName) then [c0] else [];
    ghost var second := if References(rel, parent, pp.1, nodeName) then [c1] else [];
    ghost var whole := base + ParentCalls(rel, nodeType, nodeName, pt, parent);
    assert whole == (base + first) + second;
    var cur := es;
    if References(rel, parent, pp.0, nodeName) {
      var r := RunCall(rel, doc, base, edits, cur, c0);
      if r.None? {
        ThrowSticks(rel, doc, base + first, whole, edits);
        return None;
      }
      cur := r.value;
    } else {
      assert base + first == base;
    }
    if References(rel, parent, pp.1, nodeName) {
      var r := RunCall(rel, doc, base + first, edits, cur, c1);
      if r.None? {
        return None;
      }
      cur := r.value;
    } else {
      assert whole == base + first;
    }
    out := Some(cur);
  }

  /** Once a call throws, every extension of the run throws. */
  lemma ThrowSticks(rel: Relations, doc: Doc, p: seq<Call>, q: seq<Call>, edits: seq<Edit>)
    requires p <= q && RunCalls(rel, doc, p, edits).None?
    ensures RunCalls(rel, doc, q, edits).None?
  {
    RunCallsAppend(rel, doc, p, q[|p|..], edits);
    assert p + q[|p|..] == q;
  }

  lemma TypeCallsNext(rel: Relations, nodeType: string, nodeName: string, pt: string, parents: seq<Entity>,
                      base: seq<Call>, j: nat)
    requires j < |parents|
    ensures base + TypeCalls(rel, nodeType, nodeName, pt, parents[..j + 1])
         == (base + TypeCalls(rel, nodeType, nodeName, pt, parents[..j])) + ParentCalls(rel, nodeType, nodeName, pt, parents[j])
  {
    assert parents[..j + 1][..j] == parents[..j];
  }

  /** A throw among the first `k` parents is a throw of the whole loop. */
  lemma TypeCallsThrow(rel: Relations, doc: Doc, nodeType: string, nodeName: string, pt: string, parents: seq<Entity>,
                       base: seq<Call>, k: nat, edits: seq<Edit>)
    requires k <= |parents|
    requires RunCalls(rel, doc, base + TypeCalls(rel, nodeType, nodeName, pt, parents[..k]), edits).None?
    ensures RunCalls(rel, doc, base + TypeCalls(rel, nodeType, nodeName, pt, parents), edits).None?
  {
    TypeCallsPrefix(rel, nodeType, nodeName, pt, parents, k);
    ThrowSticks(rel, doc, base + TypeCalls(rel, nodeType, nodeName, pt, parents[..k]),
                base + TypeCalls(rel, nodeType, nodeName, pt, parents), edits);
  }

  lemma {:induction false} TypeCallsPrefix(rel: Relations, nodeType: string, nodeName: string, pt: string, parents: seq<Entity>, k: nat)
    requires k <= |parents|
    ensures TypeCalls(rel, nodeType, nodeName, pt, parents[..k]) <= TypeCalls(rel, nodeType, nodeName, pt, parents)
    decreases |parents| - k
  {
    if k < |parents| {
      TypeCallsPrefix(rel, nodeType, nodeName, pt, parents, k + 1);
      assert parents[..k + 1][..k] == parents[..k];
    } else {
      assert parents[..k] == parents;
    }
  }

  lemma {:induction false} RemovalCallsMonotone(rel: Relations, doc: Doc, nodeType: string, nodeName: string, pts: seq<string>, k: nat)
    requires k <= |pts|
    ensures RemovalCalls(rel, doc, nodeType, nodeName, pts[..k]) <= RemovalCalls(rel, doc, nodeType, nodeName, pts)
    decreases |pts| - k
  {
    if k < |pts| {
      RemovalCallsMonotone(rel, doc, nodeType, nodeName, pts, k + 1);
      assert pts[..k + 1][..k] == pts[..k];
    } else {
      assert pts[..k] == pts;
    }
  }

  // ---------------------------------------------------------------------------
  // doDeleteConfigurationNode, doDuplicateNode, doAddRemoveTaskInSequence

  /** The symbol an entity deletion starts from: a sequence of a scenario when the deleted
      entity is a sequence and the scenario is known, the `[type.name]` section otherwise. */
  function DeletionTarget(doc: Doc, nodeType: string, nodeName: string, scenario: Option<string>): (r: Option<Range>)
    // a sequence of a known scenario is found when the scenario's section declares it ...
    ensures nodeType == Sequence && scenario.Some? ==>
      && (r.Some? <==> Find(doc, Scenario, scenario.value).Some? && nodeName in Find(doc, Scenario, scenario.value).value.sequences)
      && (r.Some? ==> r.value == SequenceOf(scenario.value, nodeName))
    // ... and any other entity when the document has its `[type.name]` section
    ensures !(nodeType == Sequence && scenario.Some?) ==>
      && (r.Some? <==> Find(doc, nodeType, nodeName).Some?)
      && (r.Some? ==> r.value == NameOf(nodeType, nodeName))
  {
    if nodeType == Sequence && scenario.Some? then
      if SequenceList(doc, scenario.value, nodeName).Some? then Some(SequenceOf(scenario.value, nodeName)) else None
    else if Find(doc, nodeType, nodeName).Some? then Some(NameOf(nodeType, nodeName))
    else None
  }

  /** `doDeleteConfigurationNode`: after a confirmation, the entity is deleted (a sequence
      from the start of its line) and every reference to it removed. The user's answer and
      the host's acceptance of the edits are inputs; `sent` is what was handed to the host
      and `refreshed` whether the diagram view was refreshed. */
  method DeleteConfigurationNode(rel: Relations, doc: Doc, nodeType: string, nodeName: string, scenario: Option<string>,
                                 confirmed: bool, refreshOnFail: bool, hostAccepts: bool)
    returns (out: Reply, sent: seq<Edit>, refreshed: bool)
    ensures !confirmed ==> out == Undefined && sent == [] && refreshed == refreshOnFail
    ensures confirmed && DeletionTarget(doc, nodeType, nodeName, scenario).None? ==>
      out == Resolved(false) && sent == [] && refreshed == refreshOnFail
    ensures confirmed && DeletionTarget(doc, nodeType, nodeName, scenario).Some? ==>
      var first := [DeleteRange(DeletionTarget(doc, nodeType, nodeName, scenario).value, nodeType == Sequence)];
      var removed := RunCalls(rel, doc, RemovalCalls(rel, doc, nodeType, nodeName, rel.parentTypes(nodeType)), first);
      && (removed.None? ==> out == Rejected && sent == [] && !refreshed)
      && (removed.Some? ==> out == Resolved(hostAccepts) && sent == removed.value && first <= sent
                            && refreshed == (hostAccepts || refreshOnFail))
  {
    if !confirmed {
      return Undefined, [], refreshOnFail;
    }
    var target := DeletionTarget(doc, nodeType, nodeName, scenario);
    if target.None? {
      return Resolved(false), [], refreshOnFail;
    }
    var edits := [DeleteRange(target.value, nodeType == Sequence)];
    var removed := RemoveNodeLinks(rel, doc, nodeType, nodeName, edits);
    if removed.None? {
      return Rejected, [], false;
    }
    sent := removed.value;
    var res := ApplyEdits(sent, hostAccepts);
    out := Resolved(res);
    refreshed := res || refreshOnFail;
  }

  /** `doDuplicateNode`: a copy of the entity's properties is appended under the name the
      user entered (`""` when the prompt was dismissed). */
  function DuplicateNode(doc: Doc, nodeType: string, nodeName: string, newName: string, hostAccepts: bool): (r: (bool, seq<Edit>))
    ensures Find(doc, nodeType, nodeName).None? || newName == "" ==> r == (false, [])
    ensures Find(doc, nodeType, nodeName).Some? && newName != "" ==>
      r == (hostAccepts, [AppendSection(nodeType, newName, CopyOf(Find(doc, nodeType, nodeName).value.props))])
  {
    match Find(doc, nodeType, nodeName)
    case None => (false, [])
    case Some(e) =>
      if newName == "" then (false, [])
      else
        var edits := [AppendSection(nodeType, newName, CopyOf(e.props))];
        (ApplyEdits(edits, hostAccepts), edits)
  }

  function MapSeq(f: string -> string, s: seq<string>): (r: seq<string>)
    ensures |r| == |s| && forall i | 0 <= i < |s| :: r[i] == f(s[i])
  {
    seq(|s|, i requires 0 <= i < |s| => f(s[i]))
  }

  /** `s` without the occurrences of `x`: the other elements, each as often as in `s`. */
  function FilterOut(s: seq<string>, x: string): (r: seq<string>)
    ensures forall y :: y in r <==> y in s && y != x
    ensures x !in s ==> r == s
    ensures multiset(r) == multiset(s)[x := 0]
  {
    if |s| == 0 then []
    else
      assert s == [s[0]] + s[1..];
      (if s[0] == x then [] else [s[0]]) + FilterOut(s[1..], x)
  }

  /** Filtering keeps the order of the rest: it distributes over concatenation. */
  lemma {:induction false} FilterOutConcat(a: seq<string>, b: seq<string>, x: string)
    ensures FilterOut(a + b, x) == FilterOut(a, x) + FilterOut(b, x)
  {
    if |a| > 0 {
      assert (a + b)[0] == a[0];
      assert (a + b)[1..] == a[1..] + b;
      FilterOutConcat(a[1..], b, x);
    } else {
      assert a + b == b;
    }
  }

  /** The tasks of a sequence after adding or removing `nodeName`: references are reduced to
      entity names, `nodeName` appended or every occurrence of it dropped. */
  function SequenceTasks(rel: Relations, list: seq<string>, nodeName: string, add: bool): (r: seq<string>)
    ensures add ==> r == MapSeq(rel.unsuffixed, list) + [nodeName]
    ensures !add ==> forall t :: t in r <==> t in MapSeq(rel.unsuffixed, list) && t != nodeName
    ensures !add ==> multiset(r) == multiset(MapSeq(rel.unsuffixed, list))[nodeName := 0]
    ensures !add ==> r == FilterOut(MapSeq(rel.unsuffixed, list), nodeName)
  {
    var tasks := MapSeq(rel.unsuffixed, list);
    if add then tasks + [nodeName] else FilterOut(tasks, nodeName)
  }

  /** `doAddRemoveTaskInSequence`: the result is `false` when the sequence is missing and
      `undefined` otherwise (the edit is sent without waiting); the edit replaces the
      sequence's task list, each task written with its section name. */
  function AddRemoveTaskInSequence(rel: Relations, doc: Doc, scenario: string, sequence: string, nodeName: string, add: bool): (r: (Reply, seq<Edit>))
    ensures SequenceList(doc, scenario, sequence).None? ==> r == (Resolved(false), [])
    ensures SequenceList(doc, scenario, sequence).Some? ==>
      && r.0 == Undefined
      && r.1 == [ReplaceList(SequenceOf(scenario, sequence),
                            MapSeq(rel.sectionName, SequenceTasks(rel, SequenceList(doc, scenario, sequence).value, nodeName, add)))]
  {
    match SequenceList(doc, scenario, sequence)
    case None => (Resolved(false), [])
    case Some(list) =>
      (Undefined, [ReplaceList(SequenceOf(scenario, sequence), MapSeq(rel.sectionName, SequenceTasks(rel, list, nodeName, add)))])
  }

  /** Adding a task to a sequence and then removing it leaves the sequence as it was, in its
      normal form (every reference rewritten from its entity name), when the task was not in
      it and section names resolve back to entity names. */
  lemma AddThenRemoveTask(rel: Relations, doc: Doc, scenario: string, sequence: string, nodeName: string)
    requires SequenceList(doc, scenario, sequence).Some?
    requires forall x :: rel.unsuffixed(rel.sectionName(x)) == x
    requires nodeName !in MapSeq(rel.unsuffixed, SequenceList(doc, scenario, sequence).value)
    ensures var doc' := ApplyEdit(doc, AddRemoveTaskInSequence(rel, doc, scenario, sequence, nodeName, true).1[0]);
            var doc'' := ApplyEdit(doc', AddRemoveTaskInSequence(rel, doc', scenario, sequence, nodeName, false).1[0]);
            SequenceList(doc'', scenario, sequence) == Some(MapSeq(rel.sectionName, MapSeq(rel.unsuffixed, SequenceList(doc, scenario, sequence).value)))
  {
    var list := SequenceList(doc, scenario, sequence).value;
    var names := MapSeq(rel.unsuffixed, list);
    var added := MapSeq(rel.sectionName, names + [nodeName]);
    assert Find(doc, Scenario, scenario).Some?;
    var doc' := ApplyEdit(doc, AddRemoveTaskInSequence(rel, doc, scenario, sequence, nodeName, true).1[0]);
    assert SequenceList(doc', scenario, sequence) == Some(added);
    assert MapSeq(rel.unsuffixed, added) == names + [nodeName];
    assert FilterOut(names + [nodeName], nodeName) == names by {
      FilterOutAppend(names, nodeName);
    }
    assert Find(doc', Scenario, scenario).Some?;
  }

  lemma {:induction false} FilterOutAppend(s: seq<string>, x: string)
    requires x !in s
    ensures FilterOut(s + [x], x) == s
  {
    if |s| == 0 {
      assert FilterOut([x][1..], x) == [];
    } else {
      assert (s + [x])[1..] == s[1..] + [x];
      FilterOutAppend(s[1..], x);
      assert s == [s[0]] + s[1..];
    }
  }

  // ---------------------------------------------------------------------------
  // The default name of a new entity

  predicate IsLineTerminator(c: char)
  {
    c == '\n' || c == '\r' || c == '\U{2028}' || c == '\U{2029}'
  }

  predicate NoLineTerminator(s: string)
  {
    forall k | 0 <= k < |s| :: !IsLineTerminator(s[k])
  }

  /** The step of the fold on a name equal to the candidate: `/^(.*)(_\d+)$/` splits off the
      last `_` followed by decimal digits only, whose number is incremented; failing that,
      `_1` is appended. `.` does not match a line terminator. */
  function Bump(pv: string): string
  {
    var i := LastIndexOf(pv, '_');
    if i >= 0 && i + 1 < |pv| && AllDigits(pv[i + 1..]) && NoLineTerminator(pv[..i]) then
      pv[..i] + "_" + NatToString(ParseDigits(pv[i + 1..]) + 1)
    else pv + "_1"
  }

  /** Bumping keeps the name up to any of its `_`: the new number replaces the digits after
      the last one, or is appended. */
  lemma BumpKeepsStem(pv: string, k: nat)
    requires k < |pv| && pv[k] == '_'
    ensures StartsWith(Bump(pv), pv[..k + 1])
  {
    var i := LastIndexOf(pv, '_');
    assert k <= i;
    if i >= 0 && i + 1 < |pv| && AllDigits(pv[i + 1..]) && NoLineTerminator(pv[..i]) {
      var t := NatToString(ParseDigits(pv[i + 1..]) + 1);
      assert Bump(pv) == pv[..i] + "_" + t;
      StemKept(pv, i, k, t);
    } else {
      assert Bump(pv) == pv + "_1";
      assert (pv + "_1")[..k + 1] == pv[..k + 1];
    }
  }

  /** Replacing what follows the `_` at i keeps the name up to the `_` at k <= i. */
  lemma StemKept(pv: string, i: nat, k: nat, t: string)
    requires k <= i < |pv| && pv[i] == '_'
    ensures StartsWith(pv[..i] + "_" + t, pv[..k + 1])
  {
    var r := pv[..i] + "_" + t;
    if i == k {
      assert r[..k + 1] == pv[..k] + "_";
    } else {
      assert r[..k + 1] == pv[..i][..k + 1];
    }
  }

  /** A bumped name never equals the candidate it came from, even ignoring case. */
  lemma BumpChanges(pv: string)
    ensures Lower(Bump(pv)) != Lower(pv)
  {
    var i := LastIndexOf(pv, '_');
    if i >= 0 && i + 1 < |pv| && AllDigits(pv[i + 1..]) && NoLineTerminator(pv[..i]) {
      BumpNumberChanges(pv, i);
    } else {
      assert |Lower(pv + "_1")| == |pv| + 2;
    }
  }

  lemma BumpNumberChanges(pv: string, i: nat)
    requires i < |pv| && pv[i] == '_' && AllDigits(pv[i + 1..])
    ensures Lower(pv[..i] + "_" + NatToString(ParseDigits(pv[i + 1..]) + 1)) != Lower(pv)
  {
    var p := pv[..i] + "_";
    var d := pv[i + 1..];
    var e := NatToString(ParseDigits(d) + 1);
    ParseNatToString(ParseDigits(d) + 1);
    BumpedDigitsDiffer(p, d, e);
    assert pv == p + d;
  }

  /** Two different digit strings behind the same prefix stay different in lower case. */
  lemma BumpedDigitsDiffer(p: string, d: string, e: string)
    requires AllDigits(d) && AllDigits(e) && ParseDigits(e) == ParseDigits(d) + 1
    ensures Lower(p + e) != Lower(p + d)
  {
    if |d| == |e| {
      assert d != e;
      var k :| 0 <= k < |d| && d[k] != e[k];
      assert (p + d)[|p| + k] == d[k] && (p + e)[|p| + k] == e[k];
      assert Lower(p + d)[|p| + k] == LowerChar(d[k]) == d[k];
      assert Lower(p + e)[|p| + k] == LowerChar(e[k]) == e[k];
    }
  }

  function FoldStep(pv: string, s: string): (r: string)
    ensures Lower(s) != Lower(pv) ==> r == pv
    ensures Lower(s) == Lower(pv) ==> r == Bump(pv)
  {
    if Lower(s) == Lower(pv) then Bump(pv) else pv
  }

  /** `reduce` of the step over `names` from `init`. */
  function Fold(names: seq<string>, init: string): (r: string)
    // a proposal no name matches, ignoring case, stays as it is
    ensures (forall k | 0 <= k < |names| :: Lower(names[k]) != Lower(init)) ==> r == init
  {
    if |names| == 0 then init else FoldStep(Fold(names[..|names| - 1], init), names[|names| - 1])
  }

  /** The fold keeps the initial proposal up to any of its `_`. */
  lemma {:induction false} FoldKeepsStem(names: seq<string>, init: string, k: nat)
    requires k < |init| && init[k] == '_'
    ensures StartsWith(Fold(names, init), init[..k + 1])
    decreases |names|
  {
    if |names| > 0 {
      var pv := Fold(names[..|names| - 1], init);
      FoldKeepsStem(names[..|names| - 1], init, k);
      if Lower(names[|names| - 1]) == Lower(pv) {
        BumpKeepsStem(pv, k);
        assert pv[..k + 1] == init[..k + 1];
      }
    }
  }

  /** The siblings whose lower-cased name starts with the lower-cased type, in document order
      (`sort()` without a comparator leaves symbol objects in their order). */
  function Candidates(siblings: seq<string>, nodeType: string): (r: seq<string>)
    ensures forall s | s in r :: s in siblings && StartsWith(Lower(s), Lower(nodeType))
    ensures forall s | s in siblings && StartsWith(Lower(s), Lower(nodeType)) :: s in r
  {
    if |siblings| == 0 then []
    else
      var last := siblings[|siblings| - 1];
      assert siblings == siblings[..|siblings| - 1] + [last];
      Candidates(siblings[..|siblings| - 1], nodeType) + (if StartsWith(Lower(last), Lower(nodeType)) then [last] else [])
  }

  /** The candidates keep the siblings' document order: they distribute over
      concatenation. */
  lemma {:induction false} CandidatesAppend(a: seq<string>, b: seq<string>, nodeType: string)
    ensures Candidates(a + b, nodeType) == Candidates(a, nodeType) + Candidates(b, nodeType)
    decreases |b|
  {
    if |b| == 0 {
      assert a + b == a;
    } else {
      var b' := b[..|b| - 1];
      var last := b[|b| - 1];
      var tail := if StartsWith(Lower(last), Lower(nodeType)) then [last] else [];
      assert (a + b)[..|a + b| - 1] == a + b';
      assert (a + b)[|a + b| - 1] == last;
      assert Candidates(a + b, nodeType) == Candidates(a + b', nodeType) + tail;
      assert Candidates(b, nodeType) == Candidates(b', nodeType) + tail;
      CandidatesAppend(a, b', nodeType);
      assert Candidates(a, nodeType) + Candidates(b', nodeType) + tail == Candidates(a, nodeType) + (Candidates(b', nodeType) + tail);
    }
  }

  /** The name `getNodeName` proposes for a new entity of `nodeType` among `siblings`. */
  function DefaultName(siblings: seq<string>, nodeType: string): (r: string)
    // the proposal is the type, `_` and more
    ensures StartsWith(r, nodeType + "_")
  {
    var init := nodeType + "_1";
    FoldKeepsStem(Candidates(siblings, nodeType), init, |nodeType|);
    assert init[..|nodeType| + 1] == nodeType + "_";
    Fold(Candidates(siblings, nodeType), init)
  }

  /** Without a sibling of the type the proposal is `<Type>_1`. */
  lemma DefaultNameAlone(siblings: seq<string>, nodeType: string)
    requires forall s | s in siblings :: !StartsWith(Lower(s), Lower(nodeType))
    ensures DefaultName(siblings, nodeType) == nodeType + "_1"
  {
    NoCandidates(siblings, nodeType);
  }

  lemma {:induction false} NoCandidates(siblings: seq<string>, nodeType: string)
    requires forall s | s in siblings :: !StartsWith(Lower(s), Lower(nodeType))
    ensures Candidates(siblings, nodeType) == []
  {
    if |siblings| > 0 {
      NoCandidates(siblings[..|siblings| - 1], nodeType);
      assert siblings[|siblings| - 1] in siblings;
    }
  }

  lemma SuffixBump(t: string, n: nat)
    requires NoLineTerminator(t)
    ensures Bump(t + "_" + NatToString(n)) == t + "_" + NatToString(n + 1)
  {
    var pv := t + "_" + NatToString(n);
    var d := NatToString(n);
    assert pv[|t|] == '_';
    assert forall k | |t| < k < |pv| :: pv[k] == d[k - |t| - 1];
    assert forall k | |t| < k < |pv| :: pv[k] != '_';
    assert LastIndexOf(pv, '_') == |t|;
    assert pv[|t| + 1..] == d;
    assert pv[..|t|] == t;
    ParseNatToString(n);
  }

  lemma StartsWithLower(t: string, suffix: string)
    ensures StartsWith(Lower(t + suffix), Lower(t))
  {
    LowerAppend(t, suffix);
  }

  /** Two siblings that both start with the type are both candidates. */
  lemma CandidatesPair(a: string, b: string, nodeType: string)
    requires StartsWith(Lower(a), Lower(nodeType)) && StartsWith(Lower(b), Lower(nodeType))
    ensures Candidates([a, b], nodeType) == [a, b]
  {
    assert [a][..0] == [];
    assert Candidates([a], nodeType) == [a];
    assert [a, b][..1] == [a];
  }

  lemma FoldPair(a: string, b: string, init: string)
    ensures Fold([a, b], init) == FoldStep(FoldStep(init, a), b)
  {
    FoldOne(a, init);
    assert [a, b][..1] == [a];
  }

  lemma FoldOne(a: string, init: string)
    ensures Fold([a], init) == FoldStep(init, a)
  {
    assert [a][..0] == [];
  }

  /** `<Type>_1` is bumped to `<Type>_2`, and `<Type>_2` to `<Type>_3`. */
  lemma BumpSmall(nodeType: string)
    requires NoLineTerminator(nodeType)
    ensures Bump(nodeType + "_1") == nodeType + "_2"
    ensures Bump(nodeType + "_2") == nodeType + "_3"
  {
    BumpDigit(nodeType, 1, '1', '2');
    BumpDigit(nodeType, 2, '2', '3');
  }

  lemma BumpDigit(nodeType: string, n: nat, d: char, e: char)
    requires NoLineTerminator(nodeType)
    requires n < 9 && d == DigitChar(n) && e == DigitChar(n + 1)
    ensures Bump(nodeType + ['_', d]) == nodeType + ['_', e]
  {
    SuffixBump(nodeType, n);
    assert nodeType + "_" + NatToString(n) == nodeType + ['_', d];
    assert nodeType + "_" + NatToString(n + 1) == nodeType + ['_', e];
  }

  lemma FoldStepSame(pv: string)
    ensures FoldStep(pv, pv) == Bump(pv)
  {
  }

  /** Siblings `<Type>_1` then `<Type>_2` make the proposal `<Type>_3`. */
  lemma DefaultNameCounts(nodeType: string)
    requires NoLineTerminator(nodeType)
    ensures DefaultName([nodeType + "_1", nodeType + "_2"], nodeType) == nodeType + "_3"
  {
    var s1, s2 := nodeType + "_1", nodeType + "_2";
    StartsWithLower(nodeType, "_1");
    StartsWithLower(nodeType, "_2");
    CandidatesPair(s1, s2, nodeType);
    FoldPair(s1, s2, s1);
    BumpSmall(nodeType);
    FoldStepSame(s1);
    FoldStepSame(s2);
  }

  /** The proposal never equals (ignoring case) the last candidate sibling. */
  lemma DefaultNameAvoidsLast(siblings: seq<string>, nodeType: string)
    requires Candidates(siblings, nodeType) != []
    ensures var c := Candidates(siblings, nodeType);
            Lower(DefaultName(siblings, nodeType)) != Lower(c[|c| - 1])
  {
    var c := Candidates(siblings, nodeType);
    var pv := Fold(c[..|c| - 1], nodeType + "_1");
    BumpChanges(pv);
  }

  /** The fold is a single pass: with the same siblings in the order `<Type>_2`, `<Type>_1`
      the proposal is `<Type>_2`, the name of an existing sibling. */
  lemma DefaultNameCollides(nodeType: string)
    requires NoLineTerminator(nodeType)
    ensures DefaultName([nodeType + "_2", nodeType + "_1"], nodeType) == nodeType + "_2"
    ensures nodeType + "_2" in [nodeType + "_2", nodeType + "_1"]
  {
    var s2, s1 := nodeType + "_2", nodeType + "_1";
    StartsWithLower(nodeType, "_1");
    StartsWithLower(nodeType, "_2");
    CandidatesPair(s2, s1, nodeType);
    FoldPair(s2, s1, s1);
    BumpSmall(nodeType);
    assert Lower(s2) != Lower(s1) by {
      LowerAppend(nodeType, "_2");
      LowerAppend(nodeType, "_1");
      assert Lower(s2)[|nodeType| + 1] == '2';
    }
    FoldStepSame(s1);
  }

  /** The number a sibling carries as `<type>_<digits>` ignoring case, if it does. */
  function SuffixOf(s: string, nodeType: string): Option<nat>
  {
    var ls, prefix := Lower(s), Lower(nodeType) + "_";
    if StartsWith(ls, prefix) && |ls| > |prefix| && AllDigits(ls[|prefix|..]) then Some(ParseDigits(ls[|prefix|..])) else None
  }

  function MaxSuffix(siblings: seq<string>, nodeType: string): (m: nat)
    ensures forall s | s in siblings && SuffixOf(s, nodeType).Some? :: SuffixOf(s, nodeType).value <= m
  {
    if |siblings| == 0 then 0
    else
      var rest := MaxSuffix(siblings[1..], nodeType);
      assert forall s | s in siblings && s != siblings[0] :: s in siblings[1..];
      match SuffixOf(siblings[0], nodeType)
      case None => rest
      case Some(k) => if k > rest then k else rest
  }

  /** A default name that collides with no sibling: one past the largest number any sibling
      carries. */
  function FreshName(siblings: seq<string>, nodeType: string): (r: string)
    ensures forall s | s in siblings :: Lower(s) != Lower(r)
  {
    var m := MaxSuffix(siblings, nodeType) + 1;
    var r := nodeType + "_" + NatToString(m);
    assert forall s | s in siblings :: Lower(s) == Lower(r) ==> SuffixOf(s, nodeType) == Some(m) by {
      forall s | s in siblings ensures Lower(s) == Lower(r) ==> SuffixOf(s, nodeType) == Some(m) {
        SuffixOfName(s, nodeType, m);
      }
    }
    r
  }

  lemma SuffixOfName(s: string, nodeType: string, m: nat)
    ensures Lower(s) == Lower(nodeType + "_" + NatToString(m)) ==> SuffixOf(s, nodeType) == Some(m)
  {
    var prefix := Lower(nodeType) + "_";
    LowerAppend(nodeType + "_", NatToString(m));
    LowerAppend(nodeType, "_");
    LowerDigits(NatToString(m));
    ParseNatToString(m);
    var l := Lower(nodeType + "_" + NatToString(m));
    assert l == prefix + NatToString(m);
    assert l[|prefix|..] == NatToString(m);
    assert l[..|prefix|] == prefix;
  }
}
