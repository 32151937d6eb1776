/** The configuration document as the editor sees it through its symbol index, the text
    edits the editor produces, and the link mutation engine (`createOrDeleteLink` in
    src/editors/ConfigEditor.ts) that adds or removes one reference between two entities. */
module Links {
  import opened Js
  import opened Names

  /** One `[TYPE.name]` section: its array-valued properties and, for a scenario, the
      `[SCENARIO.name.sequences]` sub-table (sequence name -> task references). */
  datatype Entity = Entity(name: string, props: map<string, seq<string>>, sequences: map<string, seq<string>>)

  /** Section type -> its entities in document order. A type is a key when the document
      has that section. */
  type Doc = map<string, seq<Entity>>

  /** The ranges edits are made on, named by the symbol they belong to. */
  datatype Range =
    | NameOf(t: string, n: string)                   // the whole `[t.n]` entity
    | PropOf(t: string, n: string, p: string)        // the value of property p of entity (t, n)
    | SequenceOf(scenario: string, sequence: string) // one entry of a scenario's sequences table

  /** What a new section's body is made of. */
  datatype Content =
    | DefaultContent                                     // the defaults for the type
    | CopyOf(props: map<string, seq<string>>)            // the properties of an existing entity

  datatype Edit =
    | ReplaceList(at: Range, items: seq<string>)           // the value becomes the list's text
    | InsertProperty(after: Range, p: string, items: seq<string>) // `p = [...]` after a name
    | DeleteRange(at: Range, fromLineStart: bool)
    | AppendSection(t: string, n: string, content: Content) // a new section at the end

  /** The schema relations and name helpers the engine is given:
      `getDescendantProperties` as the entries (property, type) of its input and output
      maps, `getChildTypes`, `getParentTypes`, `getDescendantPropertiesForType` as its
      (input property, output property) pair with `""` for none, `getSectionName` and
      `getUnsuffixedName`. */
  datatype Relations = Relations(
    inputProps: string -> seq<(string, string)>,
    outputProps: string -> seq<(string, string)>,
    childTypes: string -> seq<string>,
    parentTypes: string -> seq<string>,
    propsForType: (string, string) -> (string, string),
    sectionName: string -> string,
    unsuffixed: string -> string)

  // ---------------------------------------------------------------------------
  // Symbol lookups

  /** The position of the first entity named n. */
  function FindIn(ents: seq<Entity>, n: string): (r: Option<nat>)
    ensures r.Some? ==> r.value < |ents| && ents[r.value].name == n && forall j | 0 <= j < r.value :: ents[j].name != n
    ensures r.None? ==> forall j | 0 <= j < |ents| :: ents[j].name != n
  {
    if |ents| == 0 then None
    else if ents[0].name == n then Some(0)
    else match FindIn(ents[1..], n)
      case None => None
      case Some(i) => Some(i + 1)
  }

  /** `getSymbol(symbols, t, n)`. */
  function Find(doc: Doc, t: string, n: string): Option<Entity>
  {
    if t !in doc then None
    else match FindIn(doc[t], n)
      case None => None
      case Some(i) => Some(doc[t][i])
  }

  /** `getSymbol(symbols, t, n, p)` read as an array with `getSymbolArrayValue`; `None` when
      the property symbol is missing. */
  function PropList(doc: Doc, t: string, n: string, p: string): Option<seq<string>>
  {
    match Find(doc, t, n)
    case None => None
    case Some(e) => if p in e.props then Some(e.props[p]) else None
  }

  /** The document once property p of entity (t, n) holds v. */
  function SetProp(doc: Doc, t: string, n: string, p: string, v: seq<string>): (r: Doc)
    ensures Find(doc, t, n).Some? ==> PropList(r, t, n, p) == Some(v)
    ensures Find(doc, t, n).Some? ==> forall q | q != p :: PropList(r, t, n, q) == PropList(doc, t, n, q)
    ensures Find(doc, t, n).None? ==> r == doc
  {
    if t !in doc then doc
    else match FindIn(doc[t], n)
      case None => doc
      case Some(i) =>
        var ents := doc[t];
        var r := doc[t := ents[i := ents[i].(props := ents[i].props[p := v])]];
        assert FindIn(r[t], n) == Some(i) by { FindInSameNames(ents, r[t], n); }
        r
  }

  lemma {:induction false} FindInSameNames(a: seq<Entity>, b: seq<Entity>, n: string)
    requires |a| == |b| && forall j | 0 <= j < |a| :: a[j].name == b[j].name
    ensures FindIn(a, n) == FindIn(b, n)
  {
    if |a| > 0 {
      FindInSameNames(a[1..], b[1..], n);
    }
  }

  /** `getSymbol(symbols, SCENARIO, scenario, "sequences", sequence)` read as an array. */
  function SequenceList(doc: Doc, scenario: string, sequence: string): Option<seq<string>>
  {
    match Find(doc, Scenario, scenario)
    case None => None
    case Some(e) => if sequence in e.sequences then Some(e.sequences[sequence]) else None
  }

  /** The document once sequence `sequence` of `scenario` lists v. */
  function SetSequence(doc: Doc, scenario: string, sequence: string, v: seq<string>): (r: Doc)
    ensures Find(doc, Scenario, scenario).Some? ==> SequenceList(r, scenario, sequence) == Some(v)
    ensures Find(doc, Scenario, scenario).None? ==> r == doc
  {
    if Scenario !in doc then doc
    else match FindIn(doc[Scenario], scenario)
      case None => doc
      case Some(i) =>
        var ents := doc[Scenario];
        var r := doc[Scenario := ents[i := ents[i].(sequences := ents[i].sequences[sequence := v])]];
        assert FindIn(r[Scenario], scenario) == Some(i) by { FindInSameNames(ents, r[Scenario], scenario); }
        r
  }

  /** The effect of a list edit on the document: a replaced or inserted property, or a
      replaced sequence, holds the edit's list. Other edits leave this view of the document
      as it is. */
  function ApplyEdit(doc: Doc, e: Edit): Doc
  {
    match e
    case ReplaceList(PropOf(t, n, p), items) => SetProp(doc, t, n, p, items)
    case ReplaceList(SequenceOf(sc, s), items) => SetSequence(doc, sc, s, items)
    case InsertProperty(NameOf(t, n), p, items) => SetProp(doc, t, n, p, items)
    case _ => doc
  }

  // ---------------------------------------------------------------------------
  // The pieces of createOrDeleteLink

  /** The entity whose property is edited and the child it references. */
  datatype Ends = Ends(nodeType: string, nodeName: string, childType: string, childName: string)

  /** Direction normalisation: a link from a data node (unless every link is cleared) is
      recorded on its target, which lists the data node among its inputs; every other link
      on its source. */
  function Normalise(sourceType: string, sourceName: string, targetType: string, targetName: string, deleteAll: bool): (e: Ends)
    ensures !deleteAll && sourceType == DataNode ==> e == Ends(targetType, targetName, sourceType, sourceName)
    ensures deleteAll || sourceType != DataNode ==> e == Ends(sourceType, sourceName, targetType, targetName)
  {
    if !deleteAll && sourceType == DataNode then Ends(targetType, targetName, sourceType, sourceName)
    else Ends(sourceType, sourceName, targetType, targetName)
  }

  /** No entry of `entries` is declared with type v. */
  predicate NoneOfType(entries: seq<(string, string)>, v: string)
  {
    forall i | 0 <= i < |entries| :: entries[i].1 != v
  }

  /** k is the key of the last entry of `entries` declared with type v. */
  predicate LastOfType(entries: seq<(string, string)>, k: string, v: string)
  {
    exists i | 0 <= i < |entries| :: entries[i] == (k, v) && forall j | i < j < |entries| :: entries[j].1 != v
  }

  /** The last key of `entries` whose declared type is v (`filter`, `map`, `pop`). */
  function LastKeyFor(entries: seq<(string, string)>, v: string): (r: Option<string>)
    ensures r.None? <==> NoneOfType(entries, v)
    ensures r.Some? ==> LastOfType(entries, r.value, v)
  {
    if |entries| == 0 then None
    else if entries[|entries| - 1].1 == v then Some(entries[|entries| - 1].0)
    else LastKeyFor(entries[..|entries| - 1], v)
  }

  /** The property that holds the link; `""` stands for none (undefined or an empty key). */
  function LinkProperty(rel: Relations, e: Ends, sourceType: string, targetType: string, deleteAll: bool): (r: string)
    // clearing every link goes through the property named by the target type
    ensures deleteAll ==> r == targetType
    // otherwise it is the last property declared with the child's type, among the node's input
    // properties for a link from a data node and among its output properties for any other
    ensures !deleteAll ==>
      var props := if sourceType == DataNode then rel.inputProps(e.nodeType) else rel.outputProps(e.nodeType);
      && (r != "" ==> LastOfType(props, r, e.childType))
      && (NoneOfType(props, e.childType) ==> r == "")
  {
    if deleteAll then targetType
    else
      var reverse := sourceType == DataNode;
      match LastKeyFor(if reverse then rel.inputProps(e.nodeType) else rel.outputProps(e.nodeType), e.childType)
      case None => ""
      case Some(k) => k
  }

  /** The references of `links` other than those to `name`, in order. */
  function Without(rel: Relations, links: seq<string>, name: string): (r: seq<string>)
    ensures |r| <= |links|
    ensures forall x :: x in r <==> x in links && rel.unsuffixed(x) != name
    ensures (forall x | x in links :: rel.unsuffixed(x) != name) ==> r == links
  {
    if |links| == 0 then []
    else
      var rest := Without(rel, links[..|links| - 1], name);
      var last := links[|links| - 1];
      assert links == links[..|links| - 1] + [last];
      if rel.unsuffixed(last) != name then rest + [last] else rest
  }

  /** Removing references keeps the order of the rest: it distributes over concatenation. */
  lemma {:induction false} WithoutAppend(rel: Relations, a: seq<string>, b: seq<string>, name: string)
    ensures Without(rel, a + b, name) == Without(rel, a, name) + Without(rel, b, name)
    decreases |b|
  {
    if |b| > 0 {
      var b' := b[..|b| - 1];
      var last := b[|b| - 1];
      assert (a + b)[..|a + b| - 1] == a + b';
      assert (a + b)[|a + b| - 1] == last;
      WithoutAppend(rel, a, b', name);
      var tail := if rel.unsuffixed(last) != name then [last] else [];
      assert Without(rel, a + b, name) == Without(rel, a + b', name) + tail;
      assert Without(rel, b, name) == Without(rel, b', name) + tail;
    } else {
      assert a + b == a;
    }
  }

  /** The new value of the link property. */
  function NewLinks(rel: Relations, links: seq<string>, childName: string, create: bool, deleteAll: bool): (r: seq<string>)
    ensures create ==> r == links + [rel.sectionName(childName)]
    ensures !create && deleteAll ==> r == []
    ensures !create && !deleteAll ==> r == Without(rel, links, childName)
  {
    if create then links + [rel.sectionName(childName)]
    else if deleteAll then []
    else Without(rel, links, childName)
  }

  /** Scenario sc lists the task and would lose the data node from its additional data nodes. */
  predicate Shrinks(rel: Relations, sc: Entity, taskName: string, dnName: string)
  {
    var tasks := if PropTasks in sc.props then sc.props[PropTasks] else [];
    && (exists t | t in tasks :: rel.unsuffixed(t) == taskName)
    && PropDataNodes in sc.props
    && |Without(rel, sc.props[PropDataNodes], dnName)| < |sc.props[PropDataNodes]|
  }

  /** The edit of scenario sc: its additional data nodes without the data node. */
  function ShrinkEdit(rel: Relations, sc: Entity, dnName: string): Edit
    requires PropDataNodes in sc.props
  {
    ReplaceList(PropOf(Scenario, sc.name, PropDataNodes), Without(rel, sc.props[PropDataNodes], dnName))
  }

  /** Scenario i is the first of `scenarios` that shrinks. */
  predicate FirstShrinking(rel: Relations, scenarios: seq<Entity>, taskName: string, dnName: string, i: int)
  {
    && 0 <= i < |scenarios|
    && Shrinks(rel, scenarios[i], taskName, dnName)
    && (forall j | 0 <= j < i :: !Shrinks(rel, scenarios[j], taskName, dnName))
  }

  /** The edit, if any, of the first scenario that lists the task and has the data node among
      its additional data nodes: that list without the data node. */
  function FirstShrink(rel: Relations, scenarios: seq<Entity>, taskName: string, dnName: string): (r: seq<Edit>)
    ensures |r| <= 1
    ensures r == [] <==> forall i | 0 <= i < |scenarios| :: !Shrinks(rel, scenarios[i], taskName, dnName)
    ensures r != [] ==> exists i :: FirstShrinking(rel, scenarios, taskName, dnName, i) && r == [ShrinkEdit(rel, scenarios[i], dnName)]
  {
    if |scenarios| == 0 then []
    else
      var sc := scenarios[0];
      if Shrinks(rel, sc, taskName, dnName) then
        assert FirstShrinking(rel, scenarios, taskName, dnName, 0);
        [ShrinkEdit(rel, sc, dnName)]
      else
        var r := FirstShrink(rel, scenarios[1..], taskName, dnName);
        FirstShrinkTail(rel, scenarios, taskName, dnName, r);
        r
  }

  /** Past a first scenario that does not shrink, the search goes on in the rest. */
  lemma FirstShrinkTail(rel: Relations, scenarios: seq<Entity>, taskName: string, dnName: string, r: seq<Edit>)
    requires |scenarios| > 0 && !Shrinks(rel, scenarios[0], taskName, dnName)
    requires r == [] <==> forall i | 0 <= i < |scenarios| - 1 :: !Shrinks(rel, scenarios[1..][i], taskName, dnName)
    requires r != [] ==> exists i :: FirstShrinking(rel, scenarios[1..], taskName, dnName, i) && r == [ShrinkEdit(rel, scenarios[1..][i], dnName)]
    ensures r == [] <==> forall i | 0 <= i < |scenarios| :: !Shrinks(rel, scenarios[i], taskName, dnName)
    ensures r != [] ==> exists i :: FirstShrinking(rel, scenarios, taskName, dnName, i) && r == [ShrinkEdit(rel, scenarios[i], dnName)]
  {
    var tail := scenarios[1..];
    assert forall i | 0 < i < |scenarios| :: scenarios[i] == tail[i - 1];
    if r != [] {
      var k :| FirstShrinking(rel, tail, taskName, dnName, k) && r == [ShrinkEdit(rel, tail[k], dnName)];
      assert scenarios[k + 1] == tail[k];
      forall j | 0 <= j < k + 1 ensures !Shrinks(rel, scenarios[j], taskName, dnName) {
        if j > 0 { assert scenarios[j] == tail[j - 1]; }
      }
      assert FirstShrinking(rel, scenarios, taskName, dnName, k + 1);
    }
  }

  /** The additional-data-nodes cascade: for a link between a data node and a task, whether
      created or deleted, the first scenario that lists the task and has the data node among
      its additional data nodes drops it from them; the task is the end of type `Task` of the
      normalised ends, the data node the other. */
  function Cascade(rel: Relations, doc: Doc, sourceType: string, targetType: string, e: Ends): (r: seq<Edit>)
    ensures |r| <= 1
    ensures !((targetType == DataNode || sourceType == DataNode) && (targetType == Task || sourceType == Task)) ==> r == []
    ensures Scenario !in doc ==> r == []
    ensures (targetType == DataNode || sourceType == DataNode) && (targetType == Task || sourceType == Task) && Scenario in doc ==>
      var taskName := if e.nodeType == Task then e.nodeName else e.childName;
      var dnName := if e.nodeType == Task then e.childName else e.nodeName;
      && (r == [] <==> forall i | 0 <= i < |doc[Scenario]| :: !Shrinks(rel, doc[Scenario][i], taskName, dnName))
      && (r != [] ==> exists i :: FirstShrinking(rel, doc[Scenario], taskName, dnName, i) && r == [ShrinkEdit(rel, doc[Scenario][i], dnName)])
  {
    if (targetType == DataNode || sourceType == DataNode) && (targetType == Task || sourceType == Task) && Scenario in doc then
      var taskName := if e.nodeType == Task then e.nodeName else e.childName;
      var dnName := if e.nodeType == Task then e.childName else e.nodeName;
      FirstShrink(rel, doc[Scenario], taskName, dnName)
    else []
  }

  /** In terms of the ends as given: a link between a data node and a task, created,
      deleted or cleared, edits the first scenario that lists the task (whichever end it
      is) and would lose the data node, and no other. */
  lemma CascadeEnds(rel: Relations, doc: Doc, st: string, sn: string, tt: string, tn: string, deleteAll: bool)
    requires (st == DataNode && tt == Task) || (st == Task && tt == DataNode)
    requires Scenario in doc
    ensures var taskName := if st == Task then sn else tn;
            var dnName := if st == DataNode then sn else tn;
            var r := Cascade(rel, doc, st, tt, Normalise(st, sn, tt, tn, deleteAll));
            && (r == [] <==> forall i | 0 <= i < |doc[Scenario]| :: !Shrinks(rel, doc[Scenario][i], taskName, dnName))
            && (r != [] ==> exists i :: FirstShrinking(rel, doc[Scenario], taskName, dnName, i) && r == [ShrinkEdit(rel, doc[Scenario][i], dnName)])
  {
  }

  // ---------------------------------------------------------------------------
  // createOrDeleteLink

  datatype LinkOutcome =
    | LinkThrown                                  // `links.length` on an undefined list
    | LinkDone(edits: seq<Edit>, returned: bool)  // the edit list; `returned` is false when
                                                  // the function returns no value

  /** `createOrDeleteLink`: the edits that create, delete or (with `deleteAll`) clear the
      link between (sourceType, sourceName) and (targetType, targetName), pushed onto `edits`. */
  function CreateOrDeleteLink(rel: Relations, doc: Doc, sourceType: string, sourceName: string, targetType: string, targetName: string,
                              create: bool, deleteAll: bool, edits: seq<Edit>): (out: LinkOutcome)
    ensures out.LinkDone? ==> edits <= out.edits && |out.edits| <= |edits| + 2
    ensures out.LinkThrown? <==>
      var e := Normalise(sourceType, sourceName, targetType, targetName, deleteAll);
      var p := LinkProperty(rel, e, sourceType, targetType, deleteAll);
      p != "" && !create && PropList(doc, e.nodeType, e.nodeName, p).None?
    ensures out.LinkDone? && !out.returned ==> create
  {
    var e := Normalise(sourceType, sourceName, targetType, targetName, deleteAll);
    var property := LinkProperty(rel, e, sourceType, targetType, deleteAll);
    if property == "" then LinkDone(edits, true)
    else
      var links := PropList(doc, e.nodeType, e.nodeName, property);
      if !create && links.None? then LinkThrown
      else if !create && |links.value| == 0 then LinkDone(edits, true)
      else
        var withCascade := edits + Cascade(rel, doc, sourceType, targetType, e);
        if links.Some? then
          LinkDone(withCascade + [ReplaceList(PropOf(e.nodeType, e.nodeName, property), NewLinks(rel, links.value, e.childName, create, deleteAll))], true)
        else if Find(doc, e.nodeType, e.nodeName).Some? then
          LinkDone(withCascade + [InsertProperty(NameOf(e.nodeType, e.nodeName), property, if create then [rel.sectionName(e.childName)] else [])], true)
        else
          LinkDone(withCascade, false)
  }

  /** The last edit of an outcome, applied to the document. */
  function ApplyLast(doc: Doc, out: LinkOutcome): Doc
  {
    if out.LinkDone? && |out.edits| > 0 then ApplyEdit(doc, out.edits[|out.edits| - 1]) else doc
  }

  /** With no property for the child type, the incoming edits come back unchanged. */
  lemma NoPropertyNoEdits(rel: Relations, doc: Doc, st: string, sn: string, tt: string, tn: string, create: bool, edits: seq<Edit>)
    requires LinkProperty(rel, Normalise(st, sn, tt, tn, false), st, tt, false) == ""
    ensures CreateOrDeleteLink(rel, doc, st, sn, tt, tn, create, false, edits) == LinkDone(edits, true)
  {
  }

  /** Creating a link appends the child's section name to the existing list: once the edit is
      applied, the property lists the old references followed by the new one. */
  lemma CreateAppends(rel: Relations, doc: Doc, st: string, sn: string, tt: string, tn: string, edits: seq<Edit>)
    requires var e := Normalise(st, sn, tt, tn, false);
             var p := LinkProperty(rel, e, st, tt, false);
             p != "" && PropList(doc, e.nodeType, e.nodeName, p).Some?
    ensures var e := Normalise(st, sn, tt, tn, false);
            var p := LinkProperty(rel, e, st, tt, false);
            var out := CreateOrDeleteLink(rel, doc, st, sn, tt, tn, true, false, edits);
            && out.LinkDone? && out.returned
            && out.edits == edits + Cascade(rel, doc, st, tt, e) + [ReplaceList(PropOf(e.nodeType, e.nodeName, p), PropList(doc, e.nodeType, e.nodeName, p).value + [rel.sectionName(e.childName)])]
            && PropList(ApplyLast(doc, out), e.nodeType, e.nodeName, p) == Some(PropList(doc, e.nodeType, e.nodeName, p).value + [rel.sectionName(e.childName)])
  {
    var e := Normalise(st, sn, tt, tn, false);
    var p := LinkProperty(rel, e, st, tt, false);
    assert Find(doc, e.nodeType, e.nodeName).Some?;
  }

  /** Creating a link on an entity that lacks the property inserts `p = [child]` after the
      entity's name; when the entity is missing too, no list edit is made and no value is
      returned. */
  lemma CreateInserts(rel: Relations, doc: Doc, st: string, sn: string, tt: string, tn: string, edits: seq<Edit>)
    requires var e := Normalise(st, sn, tt, tn, false);
             var p := LinkProperty(rel, e, st, tt, false);
             p != "" && PropList(doc, e.nodeType, e.nodeName, p).None?
    ensures var e := Normalise(st, sn, tt, tn, false);
            var p := LinkProperty(rel, e, st, tt, false);
            var out := CreateOrDeleteLink(rel, doc, st, sn, tt, tn, true, false, edits);
            && (Find(doc, e.nodeType, e.nodeName).Some? ==>
                  && out == LinkDone(edits + Cascade(rel, doc, st, tt, e) + [InsertProperty(NameOf(e.nodeType, e.nodeName), p, [rel.sectionName(e.childName)])], true)
                  && PropList(ApplyLast(doc, out), e.nodeType, e.nodeName, p) == Some([rel.sectionName(e.childName)]))
            && (Find(doc, e.nodeType, e.nodeName).None? ==> out == LinkDone(edits + Cascade(rel, doc, st, tt, e), false))
  {
  }

  /** Deleting a link removes every reference to the child and keeps the rest in order; an
      empty list gives no edit, and a missing list throws. */
  lemma DeleteFilters(rel: Relations, doc: Doc, st: string, sn: string, tt: string, tn: string, edits: seq<Edit>)
    requires var e := Normalise(st, sn, tt, tn, false);
             LinkProperty(rel, e, st, tt, false) != ""
    ensures var e := Normalise(st, sn, tt, tn, false);
            var p := LinkProperty(rel, e, st, tt, false);
            var links := PropList(doc, e.nodeType, e.nodeName, p);
            var out := CreateOrDeleteLink(rel, doc, st, sn, tt, tn, false, false, edits);
            && (links.None? ==> out.LinkThrown?)
            && (links == Some([]) ==> out == LinkDone(edits, true))
            && (links.Some? && links.value != [] ==>
                  && out == LinkDone(edits + Cascade(rel, doc, st, tt, e) + [ReplaceList(PropOf(e.nodeType, e.nodeName, p), Without(rel, links.value, e.childName))], true)
                  && var after := PropList(ApplyLast(doc, out), e.nodeType, e.nodeName, p);
                  && after == Some(Without(rel, links.value, e.childName))
                  && (forall x | x in after.value :: rel.unsuffixed(x) != e.childName)
                  && (forall x | x in links.value && rel.unsuffixed(x) != e.childName :: x in after.value))
  {
    var e := Normalise(st, sn, tt, tn, false);
    var p := LinkProperty(rel, e, st, tt, false);
    if PropList(doc, e.nodeType, e.nodeName, p).Some? {
      assert Find(doc, e.nodeType, e.nodeName).Some?;
    }
  }

  /** Clearing a link property (every child of one type) replaces a non-empty list by the
      empty list, from the source whatever its type. */
  lemma DeleteAllClears(rel: Relations, doc: Doc, st: string, sn: string, tt: string, edits: seq<Edit>)
    requires tt != ""
    requires PropList(doc, st, sn, tt).Some? && PropList(doc, st, sn, tt).value != []
    ensures var out := CreateOrDeleteLink(rel, doc, st, sn, tt, "", false, true, edits);
            && out == LinkDone(edits + Cascade(rel, doc, st, tt, Ends(st, sn, tt, "")) + [ReplaceList(PropOf(st, sn, tt), [])], true)
            && PropList(ApplyLast(doc, out), st, sn, tt) == Some([])
  {
    assert Find(doc, st, sn).Some?;
  }

  /** Clearing a link property the entity does not have throws. */
  lemma DeleteAllMissingThrows(rel: Relations, doc: Doc, st: string, sn: string, tt: string, edits: seq<Edit>)
    requires tt != "" && PropList(doc, st, sn, tt).None?
    ensures CreateOrDeleteLink(rel, doc, st, sn, tt, "", false, true, edits) == LinkThrown
  {
  }

  /** Running one more call. */
  lemma RunCallsLast(rel: Relations, doc: Doc, calls: seq<Call>, c: Call, edits: seq<Edit>)
    ensures RunCalls(rel, doc, calls + [c], edits) ==
      match RunCalls(rel, doc, calls, edits)
      case None => None
      case Some(es) =>
        var out := CreateOrDeleteLink(rel, doc, c.sourceType, c.sourceName, c.targetType, c.targetName, c.create, c.deleteAll, es);
        if out.LinkThrown? then None else Some(out.edits)
  {
    assert (calls + [c])[..|calls + [c]| - 1] == calls;
  }

  /** Creating a link and then deleting it gives the original list back, for a child not yet
      referenced whose section name resolves back to it. */
  lemma {:induction false} CreateThenDeleteRestores(rel: Relations, doc: Doc, st: string, sn: string, tt: string, tn: string)
    requires var e := Normalise(st, sn, tt, tn, false);
             var p := LinkProperty(rel, e, st, tt, false);
             && p != "" && PropList(doc, e.nodeType, e.nodeName, p).Some?
             && rel.unsuffixed(rel.sectionName(e.childName)) == e.childName
             && forall x | x in PropList(doc, e.nodeType, e.nodeName, p).value :: rel.unsuffixed(x) != e.childName
    ensures var e := Normalise(st, sn, tt, tn, false);
            var p := LinkProperty(rel, e, st, tt, false);
            var doc' := ApplyLast(doc, CreateOrDeleteLink(rel, doc, st, sn, tt, tn, true, false, []));
            var doc'' := ApplyLast(doc', CreateOrDeleteLink(rel, doc', st, sn, tt, tn, false, false, []));
            PropList(doc'', e.nodeType, e.nodeName, p) == PropList(doc, e.nodeType, e.nodeName, p)
  {
    var e := Normalise(st, sn, tt, tn, false);
    var p := LinkProperty(rel, e, st, tt, false);
    var links := PropList(doc, e.nodeType, e.nodeName, p).value;
    var c := rel.sectionName(e.childName);
    CreateAppends(rel, doc, st, sn, tt, tn, []);
    var doc' := ApplyLast(doc, CreateOrDeleteLink(rel, doc, st, sn, tt, tn, true, false, []));
    assert PropList(doc', e.nodeType, e.nodeName, p) == Some(links + [c]);
    DeleteFilters(rel, doc', st, sn, tt, tn, []);
    WithoutAppend(rel, links, [c], e.childName);
    assert Without(rel, [c], e.childName) == [] by {
      assert [c][..0] == [];
    }
    assert Without(rel, links + [c], e.childName) == links;
  }

  // ---------------------------------------------------------------------------
  // Sequences of calls sharing one edit list

  /** The arguments of one `createOrDeleteLink` call. */
  datatype Call = Call(sourceType: string, sourceName: string, targetType: string, targetName: string, create: bool, deleteAll: bool)

  /** The shared edit list after a run of calls, or `None` once one of them throws. */
  function RunCalls(rel: Relations, doc: Doc, calls: seq<Call>, edits: seq<Edit>): (r: Option<seq<Edit>>)
    ensures r.Some? ==> edits <= r.value && |r.value| <= |edits| + 2 * |calls|
    decreases |calls|
  {
    if |calls| == 0 then Some(edits)
    else
      var last := calls[|calls| - 1];
      match RunCalls(rel, doc, calls[..|calls| - 1], edits)
      case None => None
      case Some(es) =>
        var out := CreateOrDeleteLink(rel, doc, last.sourceType, last.sourceName, last.targetType, last.targetName, last.create, last.deleteAll, es);
        if out.LinkThrown? then None else Some(out.edits)
  }

  /** Running two lists of calls one after the other is running their concatenation. */
  lemma {:induction false} RunCallsAppend(rel: Relations, doc: Doc, a: seq<Call>, b: seq<Call>, edits: seq<Edit>)
    ensures RunCalls(rel, doc, a + b, edits) ==
      match RunCalls(rel, doc, a, edits)
      case None => None
      case Some(es) => RunCalls(rel, doc, b, es)
    decreases |b|
  {
    if |b| == 0 {
      assert a + b == a;
    } else {
      var b' := b[..|b| - 1];
      assert (a + b)[..|a + b| - 1] == a + b';
      assert (a + b)[|a + b| - 1] == b[|b| - 1];
      RunCallsAppend(rel, doc, a, b', edits);
      if RunCalls(rel, doc, a, edits).None? {
        assert RunCalls(rel, doc, a + b', edits).None?;
      }
    }
  }
}
