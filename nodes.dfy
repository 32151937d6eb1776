/** The perspective subgraph extractor of the diagram view: a worklist traversal over the
    display model (nodes by type and name, links between them) that emits every link once,
    and the perspective computation built on it (root bucket removed, pinned extra entities
    merged in, the root's sequence reattached). */
module Nodes {
  import opened Js
  import opened Names

  type NodeData = map<string, string>

  /** type -> name -> property data */
  type NodeMap = map<string, map<string, NodeData>>

  /** `[[sourceType, sourceName, targetType, targetName], meta]` */
  datatype Link = Link(sourceType: string, sourceName: string, targetType: string, targetName: string, meta: string)

  /** `nodes` is `None` when the model has no node table, `links` is `None` when the links
      field is not an array. */
  datatype DisplayModel = DisplayModel(nodes: Option<NodeMap>, links: Option<seq<Link>>, sequences: map<string, seq<string>>)

  /** A queued visit: type, name and whether the node's links are followed. */
  type Item = (string, string, bool)

  predicate HasNode(nodes: NodeMap, t: string, n: string)
  {
    t in nodes && n in nodes[t]
  }

  /** The key of the visited set, `${type}.${name}`. */
  function Key(t: string, n: string): string
  {
    t + "." + n
  }

  /** Link `l` is taken when node (t, n) is expanded: forward from a matching source, or
      backward when the source is a data node and the target matches. */
  predicate Follows(l: Link, t: string, n: string)
  {
    (l.sourceType == t && l.sourceName == n)
    || (l.sourceType == DataNode && l.targetType == t && l.targetName == n)
  }

  /** (t, n) is one end of `l`. */
  predicate Touches(l: Link, t: string, n: string)
  {
    (l.sourceType == t && l.sourceName == n) || (l.targetType == t && l.targetName == n)
  }

  /** The visit queued when `l` is taken from (t, n): the target when followed forward (its
      own links are followed unless it is a data node), the data-node source otherwise. */
  function PushFor(l: Link, t: string, n: string): Item
  {
    if l.sourceType == t && l.sourceName == n then (l.targetType, l.targetName, DataNode != l.targetType)
    else (l.sourceType, l.sourceName, false)
  }

  /** Every node of `r` is a node of `m` with the same data. */
  ghost predicate SubNodes(r: NodeMap, m: NodeMap)
  {
    forall t, n | HasNode(r, t, n) :: HasNode(m, t, n) && r[t][n] == m[t][n]
  }

  /** The links of `pool` that node (t, n) takes, in pool order. */
  function Taken(pool: seq<Link>, t: string, n: string): seq<Link>
  {
    if |pool| == 0 then []
    else
      var last := pool[|pool| - 1];
      Taken(pool[..|pool| - 1], t, n) + (if Follows(last, t, n) then [last] else [])
  }

  /** The links of `pool` that node (t, n) does not take, in pool order. */
  function Left(pool: seq<Link>, t: string, n: string): seq<Link>
  {
    if |pool| == 0 then []
    else
      var last := pool[|pool| - 1];
      Left(pool[..|pool| - 1], t, n) + (if Follows(last, t, n) then [] else [last])
  }

  /** What a scan of `pool` at node (t, n) returns: the links taken, in pool order, the
      visits they queue, and the pool left once exactly the taken links are removed, in its
      order. */
  ghost predicate ScanInv(pool: seq<Link>, t: string, n: string, found: seq<Link>, pushed: seq<Item>, kept: seq<Link>)
  {
    && found == Taken(pool, t, n)
    && kept == Left(pool, t, n)
    && ScanParts(pool, t, n, found, pushed, kept)
  }

  /** The taken and left links split the pool, and each taken link queues its visit. */
  ghost predicate ScanParts(pool: seq<Link>, t: string, n: string, found: seq<Link>, pushed: seq<Item>, kept: seq<Link>)
  {
    && multiset(found) + multiset(kept) == multiset(pool)
    && (forall l | l in found :: Follows(l, t, n))
    && (forall l | l in kept :: !Follows(l, t, n))
    && |pushed| == |found|
    && (forall i | 0 <= i < |found| :: pushed[i] == PushFor(found[i], t, n))
  }

  /** One scan of the link pool at node (t, n). */
  method ScanPool(pool: seq<Link>, t: string, n: string) returns (found: seq<Link>, pushed: seq<Item>, kept: seq<Link>)
    ensures ScanInv(pool, t, n, found, pushed, kept)
  {
    found, pushed, kept := [], [], [];
    var idx := 0;
    while idx < |pool|
      invariant 0 <= idx <= |pool|
      invariant ScanInv(pool[..idx], t, n, found, pushed, kept)
    {
      var link := pool[idx];
      var take := true;
      var push: Item := ("", "", false);
      if link.sourceType == t && link.sourceName == n {
        push := (link.targetType, link.targetName, DataNode != link.targetType);
      } else if link.sourceType == DataNode && link.targetType == t && link.targetName == n {
        push := (link.sourceType, link.sourceName, false);
      } else {
        take := false;
      }
      ScanStep(pool, idx, t, n, found, pushed, kept, take, push);
      if take {
        pushed := pushed + [push];
        found := found + [link];
      } else {
        kept := kept + [link];
      }
      idx := idx + 1;
    }
    assert pool[..idx] == pool;
  }

  lemma ScanStep(pool: seq<Link>, idx: nat, t: string, n: string, found: seq<Link>, pushed: seq<Item>, kept: seq<Link>,
                 take: bool, push: Item)
    requires idx < |pool| && ScanInv(pool[..idx], t, n, found, pushed, kept)
    requires take == Follows(pool[idx], t, n) && (take ==> push == PushFor(pool[idx], t, n))
    ensures take ==> ScanInv(pool[..idx + 1], t, n, found + [pool[idx]], pushed + [push], kept)
    ensures !take ==> ScanInv(pool[..idx + 1], t, n, found, pushed, kept + [pool[idx]])
  {
    SplitNext(pool, idx, t, n);
    PartsNext(pool, idx, t, n, found, pushed, kept, take, push);
  }

  lemma PartsNext(pool: seq<Link>, idx: nat, t: string, n: string, found: seq<Link>, pushed: seq<Item>, kept: seq<Link>,
                  take: bool, push: Item)
    requires idx < |pool| && ScanParts(pool[..idx], t, n, found, pushed, kept)
    requires take == Follows(pool[idx], t, n) && (take ==> push == PushFor(pool[idx], t, n))
    ensures take ==> ScanParts(pool[..idx + 1], t, n, found + [pool[idx]], pushed + [push], kept)
    ensures !take ==> ScanParts(pool[..idx + 1], t, n, found, pushed, kept + [pool[idx]])
  {
    assert pool[..idx + 1] == pool[..idx] + [pool[idx]];
  }

  /** One more link of the pool lands at the end of the taken or of the left links. */
  lemma SplitNext(pool: seq<Link>, idx: nat, t: string, n: string)
    requires idx < |pool|
    ensures Taken(pool[..idx + 1], t, n) == Taken(pool[..idx], t, n) + (if Follows(pool[idx], t, n) then [pool[idx]] else [])
    ensures Left(pool[..idx + 1], t, n) == Left(pool[..idx], t, n) + (if Follows(pool[idx], t, n) then [] else [pool[idx]])
  {
    assert pool[..idx + 1][..idx] == pool[..idx];
  }

  /** The state of the traversal from root (rt, rn): `nodes` and `links` collected so far,
      `pool` the links not yet taken, `queue` the pending visits, `done` the visited keys and
      `expanded` the nodes whose links were followed, in order. */
  ghost predicate TraversalInv(model: NodeMap, allLinks: seq<Link>, rt: string, rn: string,
                               nodes: NodeMap, links: seq<Link>, pool: seq<Link>, queue: seq<Item>,
                               done: set<string>, expanded: seq<(string, string)>)
  {
    && SubNodes(nodes, model)
    && LinksInv(allLinks, links, pool, expanded)
    && ExpandedInv(rt, rn, nodes, done, expanded)
    && CoverInv(rt, rn, nodes, links, expanded)
    && QueueInv(links, queue)
    && (Key(rt, rn) in done && HasNode(model, rt, rn) ==> HasNode(nodes, rt, rn))
  }

  /** Links are moved from the pool to the result only, each taken at an expanded node, and
      the pool holds nothing an expanded node takes. */
  ghost predicate LinksInv(allLinks: seq<Link>, links: seq<Link>, pool: seq<Link>, expanded: seq<(string, string)>)
  {
    && multiset(links) + multiset(pool) == multiset(allLinks)
    && (forall l | l in links :: exists e | e in expanded :: Follows(l, e.0, e.1))
    && (forall e, l | e in expanded && l in pool :: !Follows(l, e.0, e.1))
  }

  /** Expanded nodes are collected, visited, pairwise distinct by key, and data nodes only
      when they are the root. */
  ghost predicate ExpandedInv(rt: string, rn: string, nodes: NodeMap, done: set<string>, expanded: seq<(string, string)>)
  {
    && (forall e | e in expanded :: Key(e.0, e.1) in done)
    && (forall i, j | 0 <= i < j < |expanded| :: Key(expanded[i].0, expanded[i].1) != Key(expanded[j].0, expanded[j].1))
    && (forall e | e in expanded :: HasNode(nodes, e.0, e.1) && (e.0 != DataNode || e == (rt, rn)))
  }

  /** Collected nodes other than data nodes are expanded, and every collected node is the
      root or an end of a collected link. */
  ghost predicate CoverInv(rt: string, rn: string, nodes: NodeMap, links: seq<Link>, expanded: seq<(string, string)>)
  {
    && (forall t, n | HasNode(nodes, t, n) && (t != DataNode || (t, n) == (rt, rn)) :: (t, n) in expanded)
    && (forall t, n | HasNode(nodes, t, n) :: (t, n) == (rt, rn) || exists l | l in links :: Touches(l, t, n))
  }

  /** Queued visits follow links exactly when they are not data nodes, and are ends of
      collected links. */
  ghost predicate QueueInv(links: seq<Link>, queue: seq<Item>)
  {
    forall q | q in queue :: q.2 == (q.0 != DataNode) && exists l | l in links :: Touches(l, q.0, q.1)
  }

  /** An end the walk can tell apart: a non-empty type and name, and a type without `.`, so
      that two such ends have the same key `${type}.${name}` only when they are equal, and
      no queued visit of it ends the walk early. */
  predicate CleanEnd(t: string, n: string)
  {
    t != "" && n != "" && '.' !in t
  }

  /** The root and both ends of every link are clean. */
  predicate Clean(allLinks: seq<Link>, rt: string, rn: string)
  {
    CleanEnd(rt, rn) && forall l | l in allLinks :: CleanEnd(l.sourceType, l.sourceName) && CleanEnd(l.targetType, l.targetName)
  }

  /** What the walk has settled, for clean ends: every visited end the model has was copied,
      every visited end other than a data node was expanded, and the other end of each link
      an expanded node takes is visited or still pending. */
  ghost predicate ClosureInv(model: NodeMap, allLinks: seq<Link>, nodes: NodeMap, pending: seq<Item>,
                             done: set<string>, expanded: seq<(string, string)>)
  {
    && (forall t, n | Key(t, n) in done && '.' !in t && HasNode(model, t, n) :: HasNode(nodes, t, n))
    && (forall t, n | Key(t, n) in done && '.' !in t && t != DataNode && HasNode(model, t, n) :: (t, n) in expanded)
    && (forall e, l | e in expanded && l in allLinks && Follows(l, e.0, e.1) ::
          Key(PushFor(l, e.0, e.1).0, PushFor(l, e.0, e.1).1) in done || PushFor(l, e.0, e.1) in pending)
  }

  /** Keys of ends whose types have no `.` tell the ends apart. */
  lemma KeyInjective(t: string, n: string, t': string, n': string)
    requires '.' !in t && '.' !in t' && Key(t, n) == Key(t', n')
    ensures t == t' && n == n'
  {
    var k := Key(t, n);
    assert k[|t|] == '.' && forall i | 0 <= i < |t| :: k[i] == t[i] && k[i] != '.';
    assert k[|t'|] == '.' && forall i | 0 <= i < |t'| :: k[i] == t'[i] && k[i] != '.';
    assert |t| == |t'|;
    assert t == k[..|t|] && t' == k[..|t'|];
    assert n == k[|t| + 1..] && n' == k[|t'| + 1..];
  }

  /** The ends of a link taken at (t, n) are (t, n) and the end its visit queues. */
  lemma PushForEnds(l: Link, t: string, n: string)
    requires Follows(l, t, n)
    ensures var q := PushFor(l, t, n);
      && ((l.sourceType, l.sourceName) == (t, n) || (l.sourceType, l.sourceName) == (q.0, q.1))
      && ((l.targetType, l.targetName) == (t, n) || (l.targetType, l.targetName) == (q.0, q.1))
  {
  }

  /** A link taken at two different ends queues, from the second, the first. */
  lemma PushForOther(l: Link, e: (string, string), t: string, n: string)
    requires Follows(l, e.0, e.1) && Follows(l, t, n) && e != (t, n)
    ensures (PushFor(l, t, n).0, PushFor(l, t, n).1) == e
  {
  }

  /** The node table with the model's (t, n) copied in. */
  function AddNode(model: NodeMap, nodes: NodeMap, t: string, n: string): (r: NodeMap)
    requires HasNode(model, t, n)
    ensures forall t', n' :: HasNode(r, t', n') <==> HasNode(nodes, t', n') || (t', n') == (t, n)
    ensures SubNodes(nodes, model) ==> SubNodes(r, model)
  {
    nodes[t := (if t in nodes then nodes[t] else map[])[n := model[t][n]]]
  }

  /** The end (t, n) is queued from the expanded node `e`: a collected link taken at `e` has
      (t, n) as its other end. */
  ghost predicate Queues(links: seq<Link>, e: (string, string), t: string, n: string)
  {
    exists l | l in links :: Follows(l, e.0, e.1) && PushFor(l, e.0, e.1).0 == t && PushFor(l, e.0, e.1).1 == n
  }

  /** The expanded nodes in the order of their expansion: the root first, and each later one
      queued from an earlier one, so every expanded node is reached from the root. */
  ghost predicate Reached(rt: string, rn: string, links: seq<Link>, expanded: seq<(string, string)>)
  {
    && (|expanded| > 0 ==> expanded[0] == (rt, rn))
    && forall k | 0 < k < |expanded| :: exists j | 0 <= j < k :: Queues(links, expanded[j], expanded[k].0, expanded[k].1)
  }

  /** The visit of (t, n) is the first one, of the root, or was queued from an expanded node. */
  ghost predicate VisitReach(rt: string, rn: string, links: seq<Link>, expanded: seq<(string, string)>, t: string, n: string)
  {
    (expanded == [] && (t, n) == (rt, rn)) || exists j | 0 <= j < |expanded| :: Queues(links, expanded[j], t, n)
  }

  /** The expanded nodes are reached from the root, and every queued visit was queued from
      one of them. */
  ghost predicate ReachInv(rt: string, rn: string, links: seq<Link>, expanded: seq<(string, string)>, queue: seq<Item>)
  {
    && Reached(rt, rn, links, expanded)
    && forall q | q in queue :: exists j | 0 <= j < |expanded| :: Queues(links, expanded[j], q.0, q.1)
  }

  /** Expanding (t, n), whose visit was queued from an expanded node or is the root's, keeps
      the expanded nodes reached, and the visits it queues are queued from it. */
  lemma ExpandReach(rt: string, rn: string, links: seq<Link>, queue: seq<Item>, expanded: seq<(string, string)>,
                    t: string, n: string, found: seq<Link>, pushed: seq<Item>)
    requires VisitReach(rt, rn, links, expanded, t, n) && ReachInv(rt, rn, links, expanded, queue)
    requires forall l | l in found :: Follows(l, t, n)
    requires |pushed| == |found| && forall i | 0 <= i < |found| :: pushed[i] == PushFor(found[i], t, n)
    ensures ReachInv(rt, rn, links + found, expanded + [(t, n)], queue + pushed)
  {
    var links', expanded' := links + found, expanded + [(t, n)];
    forall e, t', n' | Queues(links, e, t', n') ensures Queues(links', e, t', n') {
      var l :| l in links && Follows(l, e.0, e.1) && PushFor(l, e.0, e.1).0 == t' && PushFor(l, e.0, e.1).1 == n';
      assert l in links';
    }
    forall k | 0 < k < |expanded'|
      ensures exists j | 0 <= j < k :: Queues(links', expanded'[j], expanded'[k].0, expanded'[k].1)
    {
      if k < |expanded| {
        var j :| 0 <= j < k && Queues(links, expanded[j], expanded[k].0, expanded[k].1);
        assert expanded'[j] == expanded[j] && expanded'[k] == expanded[k];
      } else {
        var j :| 0 <= j < |expanded| && Queues(links, expanded[j], t, n);
        assert expanded'[j] == expanded[j];
      }
    }
    forall q | q in queue + pushed ensures exists j | 0 <= j < |expanded'| :: Queues(links', expanded'[j], q.0, q.1) {
      if q in queue {
        var j :| 0 <= j < |expanded| && Queues(links, expanded[j], q.0, q.1);
        assert expanded'[j] == expanded[j];
      } else {
        var i :| 0 <= i < |pushed| && pushed[i] == q;
        assert found[i] in links';
        assert expanded'[|expanded|] == (t, n);
        assert Queues(links', expanded'[|expanded|], q.0, q.1);
      }
    }
  }

  /** What holds of the visit (t, n, follow) about to be made: it is the root, visited first
      with its links followed, or a queued end of an emitted link. */
  ghost predicate VisitOk(rt: string, rn: string, links: seq<Link>, done: set<string>, t: string, n: string, follow: bool)
  {
    && (follow == (t != DataNode) || ((t, n) == (rt, rn) && follow))
    && ((t, n) == (rt, rn) || exists l | l in links :: Touches(l, t, n))
    && (Key(rt, rn) in done || ((t, n) == (rt, rn) && follow))
  }

  /** The body of the traversal loop for one visit. */
  method Visit(model: NodeMap, ghost allLinks: seq<Link>, ghost rt: string, ghost rn: string,
               t: string, n: string, follow: bool,
               nodes: NodeMap, links: seq<Link>, pool: seq<Link>, queue: seq<Item>, done: set<string>,
               ghost expanded: seq<(string, string)>)
    returns (nodes': NodeMap, links': seq<Link>, pool': seq<Link>, queue': seq<Item>, done': set<string>,
             ghost expanded': seq<(string, string)>)
    requires VisitOk(rt, rn, links, done, t, n, follow)
    requires TraversalInv(model, allLinks, rt, rn, nodes, links, pool, queue, done, expanded)
    requires Clean(allLinks, rt, rn) ==> ClosureInv(model, allLinks, nodes, [(t, n, follow)] + queue, done, expanded)
    requires VisitReach(rt, rn, links, expanded, t, n) && ReachInv(rt, rn, links, expanded, queue)
    ensures TraversalInv(model, allLinks, rt, rn, nodes', links', pool', queue', done', expanded')
    ensures Clean(allLinks, rt, rn) ==> ClosureInv(model, allLinks, nodes', queue', done', expanded')
    ensures ReachInv(rt, rn, links', expanded', queue')
    ensures Key(t, n) in done' && Key(rt, rn) in done'
    ensures |pool'| + |queue'| == |pool| + |queue|
  {
    if Clean(allLinks, rt, rn) {
      VisitClean(model, allLinks, rt, rn, nodes, links, pool, queue, done, expanded, t, n, follow);
    }
    if Key(t, n) in done {
      if Clean(allLinks, rt, rn) {
        SkipClosure(model, allLinks, nodes, queue, done, expanded, t, n, follow);
      }
      return nodes, links, pool, queue, done, expanded;
    } else if HasNode(model, t, n) && follow {
      nodes', links', pool', queue', done', expanded' := Expand(model, allLinks, rt, rn, t, n, nodes, links, pool, queue, done, expanded);
    } else {
      nodes', done' := Include(model, allLinks, rt, rn, t, n, follow, nodes, links, pool, queue, done, expanded);
      links', pool', queue', expanded' := links, pool, queue, expanded;
    }
  }

  /** A first visit that does not follow links: the node, when the model has it, is copied. */
  method Include(model: NodeMap, ghost allLinks: seq<Link>, ghost rt: string, ghost rn: string,
                 t: string, n: string, follow: bool,
                 nodes: NodeMap, ghost links: seq<Link>, ghost pool: seq<Link>, ghost queue: seq<Item>, done: set<string>,
                 ghost expanded: seq<(string, string)>)
    returns (nodes': NodeMap, done': set<string>)
    requires VisitOk(rt, rn, links, done, t, n, follow)
    requires Key(t, n) !in done && !(HasNode(model, t, n) && follow)
    requires TraversalInv(model, allLinks, rt, rn, nodes, links, pool, queue, done, expanded)
    requires Clean(allLinks, rt, rn) ==> '.' !in t && ClosureInv(model, allLinks, nodes, [(t, n, follow)] + queue, done, expanded)
    ensures TraversalInv(model, allLinks, rt, rn, nodes', links, pool, queue, done', expanded)
    ensures Clean(allLinks, rt, rn) ==> ClosureInv(model, allLinks, nodes', queue, done', expanded)
    ensures Key(t, n) in done' && Key(rt, rn) in done'
  {
    done' := done + {Key(t, n)};
    nodes' := nodes;
    if HasNode(model, t, n) {
      nodes' := AddNode(model, nodes, t, n);
    }
    if Clean(allLinks, rt, rn) {
      IncludeClosure(model, allLinks, rt, rn, nodes, nodes', queue, done, expanded, t, n, follow);
    }
  }

  /** A first visit that follows links: the node is copied and expanded, its links are taken
      from the pool and their other ends queued. */
  method Expand(model: NodeMap, ghost allLinks: seq<Link>, ghost rt: string, ghost rn: string,
                t: string, n: string,
                nodes: NodeMap, links: seq<Link>, pool: seq<Link>, queue: seq<Item>, done: set<string>,
                ghost expanded: seq<(string, string)>)
    returns (nodes': NodeMap, links': seq<Link>, pool': seq<Link>, queue': seq<Item>, done': set<string>,
             ghost expanded': seq<(string, string)>)
    requires VisitOk(rt, rn, links, done, t, n, true)
    requires Key(t, n) !in done && HasNode(model, t, n)
    requires TraversalInv(model, allLinks, rt, rn, nodes, links, pool, queue, done, expanded)
    requires Clean(allLinks, rt, rn) ==> '.' !in t && ClosureInv(model, allLinks, nodes, [(t, n, true)] + queue, done, expanded)
    requires VisitReach(rt, rn, links, expanded, t, n) && ReachInv(rt, rn, links, expanded, queue)
    ensures TraversalInv(model, allLinks, rt, rn, nodes', links', pool', queue', done', expanded')
    ensures Clean(allLinks, rt, rn) ==> ClosureInv(model, allLinks, nodes', queue', done', expanded')
    ensures ReachInv(rt, rn, links', expanded', queue')
    ensures Key(t, n) in done' && Key(rt, rn) in done'
    ensures |pool'| + |queue'| == |pool| + |queue|
  {
    done' := done + {Key(t, n)};
    nodes' := AddNode(model, nodes, t, n);
    expanded' := expanded + [(t, n)];
    var found, pushed, kept := ScanPool(pool, t, n);
    assert |found| + |kept| == |pool| by {
      assert |multiset(found) + multiset(kept)| == |multiset(pool)|;
    }
    queue' := queue + pushed;
    links' := links + found;
    pool' := kept;
    ExpandLinks(allLinks, links, pool, expanded, t, n, found, kept);
    ExpandQueue(links, queue, t, n, found, pushed);
    ExpandReach(rt, rn, links, queue, expanded, t, n, found, pushed);
    ExpandCover(rt, rn, nodes, nodes', links, found, expanded, t, n);
    ExpandVisited(model, rt, rn, nodes, links, done, expanded, t, n);
    if Clean(allLinks, rt, rn) {
      ExpandClosure(model, allLinks, nodes, links, pool, queue, done, expanded, t, n, found, pushed, kept);
    }
  }

  /** Copying and marking (t, n) keeps the node and visit parts of the invariant. */
  lemma ExpandVisited(model: NodeMap, rt: string, rn: string, nodes: NodeMap, links: seq<Link>, done: set<string>,
                      expanded: seq<(string, string)>, t: string, n: string)
    requires VisitOk(rt, rn, links, done, t, n, true)
    requires Key(t, n) !in done && HasNode(model, t, n)
    requires SubNodes(nodes, model) && ExpandedInv(rt, rn, nodes, done, expanded)
    requires Key(rt, rn) in done && HasNode(model, rt, rn) ==> HasNode(nodes, rt, rn)
    ensures var nodes' := AddNode(model, nodes, t, n);
      && SubNodes(nodes', model)
      && ExpandedInv(rt, rn, nodes', done + {Key(t, n)}, expanded + [(t, n)])
      && Key(rt, rn) in done + {Key(t, n)}
      && (HasNode(model, rt, rn) ==> HasNode(nodes', rt, rn))
  {
    var e' := expanded + [(t, n)];
    forall i, j | 0 <= i < j < |e'| ensures Key(e'[i].0, e'[i].1) != Key(e'[j].0, e'[j].1) {
      if j == |expanded| {
        assert e'[i] in expanded;
      }
    }
  }

  /** Taking the links of (t, n) from the pool keeps the link invariant. */
  lemma ExpandLinks(allLinks: seq<Link>, links: seq<Link>, pool: seq<Link>, expanded: seq<(string, string)>,
                    t: string, n: string, found: seq<Link>, kept: seq<Link>)
    requires LinksInv(allLinks, links, pool, expanded)
    requires multiset(found) + multiset(kept) == multiset(pool)
    requires forall l | l in found :: Follows(l, t, n)
    requires forall l | l in kept :: !Follows(l, t, n)
    ensures LinksInv(allLinks, links + found, kept, expanded + [(t, n)])
  {
    forall l | l in kept ensures l in pool {
      assert l in multiset(kept);
      assert l in multiset(pool);
    }
    forall l | l in links + found ensures exists e | e in expanded + [(t, n)] :: Follows(l, e.0, e.1) {
      if l in found {
        assert (t, n) in expanded + [(t, n)];
      } else {
        var e :| e in expanded && Follows(l, e.0, e.1);
        assert e in expanded + [(t, n)];
      }
    }
  }

  /** The visits queued for the taken links keep the queue invariant. */
  lemma ExpandQueue(links: seq<Link>, queue: seq<Item>, t: string, n: string, found: seq<Link>, pushed: seq<Item>)
    requires QueueInv(links, queue)
    requires forall l | l in found :: Follows(l, t, n)
    requires |pushed| == |found|
    requires forall i | 0 <= i < |found| :: pushed[i] == PushFor(found[i], t, n)
    ensures QueueInv(links + found, queue + pushed)
  {
    forall q | q in queue + pushed
      ensures q.2 == (q.0 != DataNode) && exists l | l in links + found :: Touches(l, q.0, q.1)
    {
      if q in queue {
        var l :| l in links && Touches(l, q.0, q.1);
        assert l in links + found;
      } else {
        var i :| 0 <= i < |pushed| && pushed[i] == q;
        assert found[i] in found;
        assert found[i] in links + found;
      }
    }
  }

  /** Copying and expanding (t, n) keeps the coverage invariant. */
  lemma ExpandCover(rt: string, rn: string, nodes: NodeMap, nodes': NodeMap, links: seq<Link>, found: seq<Link>,
                    expanded: seq<(string, string)>, t: string, n: string)
    requires CoverInv(rt, rn, nodes, links, expanded)
    requires forall t', n' :: HasNode(nodes', t', n') <==> HasNode(nodes, t', n') || (t', n') == (t, n)
    requires (t, n) == (rt, rn) || exists l | l in links :: Touches(l, t, n)
    ensures CoverInv(rt, rn, nodes', links + found, expanded + [(t, n)])
  {
    forall t', n' | HasNode(nodes', t', n')
      ensures (t', n') == (rt, rn) || exists l | l in links + found :: Touches(l, t', n')
    {
      if (t', n') != (rt, rn) {
        var l :| l in links && Touches(l, t', n');
        assert l in links + found;
      }
    }
  }

  /** For clean ends, the visit being made is of a clean end. */
  lemma VisitClean(model: NodeMap, allLinks: seq<Link>, rt: string, rn: string,
                   nodes: NodeMap, links: seq<Link>, pool: seq<Link>, queue: seq<Item>, done: set<string>,
                   expanded: seq<(string, string)>, t: string, n: string, follow: bool)
    requires Clean(allLinks, rt, rn)
    requires VisitOk(rt, rn, links, done, t, n, follow)
    requires TraversalInv(model, allLinks, rt, rn, nodes, links, pool, queue, done, expanded)
    ensures CleanEnd(t, n)
  {
    if (t, n) != (rt, rn) {
      var l :| l in links && Touches(l, t, n);
      assert l in multiset(links);
      assert l in multiset(allLinks);
    }
  }

  /** For clean links, the head of the queue is a clean end. */
  lemma QueueClean(allLinks: seq<Link>, links: seq<Link>, queue: seq<Item>)
    requires |queue| > 0 && QueueInv(links, queue)
    requires forall l | l in allLinks :: CleanEnd(l.sourceType, l.sourceName) && CleanEnd(l.targetType, l.targetName)
    requires multiset(links) <= multiset(allLinks)
    ensures queue[0].0 != "" && queue[0].1 != ""
  {
    assert queue[0] in queue;
    var l :| l in links && Touches(l, queue[0].0, queue[0].1);
    assert l in multiset(links);
  }

  /** Skipping a visited end keeps what the walk has settled. */
  lemma SkipClosure(model: NodeMap, allLinks: seq<Link>, nodes: NodeMap, queue: seq<Item>, done: set<string>,
                    expanded: seq<(string, string)>, t: string, n: string, follow: bool)
    requires Key(t, n) in done
    requires ClosureInv(model, allLinks, nodes, [(t, n, follow)] + queue, done, expanded)
    ensures ClosureInv(model, allLinks, nodes, queue, done, expanded)
  {
  }

  /** Copying an end without following its links keeps what the walk has settled. */
  lemma IncludeClosure(model: NodeMap, allLinks: seq<Link>, rt: string, rn: string, nodes: NodeMap, nodes': NodeMap,
                       queue: seq<Item>, done: set<string>, expanded: seq<(string, string)>, t: string, n: string, follow: bool)
    requires '.' !in t && (follow == (t != DataNode) || ((t, n) == (rt, rn) && follow))
    requires !(HasNode(model, t, n) && follow)
    requires nodes' == if HasNode(model, t, n) then AddNode(model, nodes, t, n) else nodes
    requires ClosureInv(model, allLinks, nodes, [(t, n, follow)] + queue, done, expanded)
    ensures ClosureInv(model, allLinks, nodes', queue, done + {Key(t, n)}, expanded)
  {
    var done' := done + {Key(t, n)};
    forall t', n' | Key(t', n') in done' && '.' !in t' && HasNode(model, t', n')
      ensures HasNode(nodes', t', n') && (t' != DataNode ==> (t', n') in expanded)
    {
      if Key(t', n') == Key(t, n) {
        KeyInjective(t', n', t, n);
      }
    }
  }

  /** Copying and expanding an end keeps what the walk has settled: the links it takes queue
      their other ends, and a link already taken was taken at an end already visited. */
  lemma ExpandClosure(model: NodeMap, allLinks: seq<Link>, nodes: NodeMap, links: seq<Link>, pool: seq<Link>, queue: seq<Item>,
                      done: set<string>, expanded: seq<(string, string)>, t: string, n: string,
                      found: seq<Link>, pushed: seq<Item>, kept: seq<Link>)
    requires '.' !in t && Key(t, n) !in done && HasNode(model, t, n)
    requires LinksInv(allLinks, links, pool, expanded)
    requires forall e | e in expanded :: Key(e.0, e.1) in done
    requires ScanParts(pool, t, n, found, pushed, kept)
    requires ClosureInv(model, allLinks, nodes, [(t, n, true)] + queue, done, expanded)
    ensures ClosureInv(model, allLinks, AddNode(model, nodes, t, n), queue + pushed, done + {Key(t, n)}, expanded + [(t, n)])
  {
    var done' := done + {Key(t, n)};
    var nodes' := AddNode(model, nodes, t, n);
    var expanded' := expanded + [(t, n)];
    forall t', n' | Key(t', n') in done' && '.' !in t' && HasNode(model, t', n')
      ensures HasNode(nodes', t', n') && (t' != DataNode ==> (t', n') in expanded')
    {
      if Key(t', n') == Key(t, n) {
        KeyInjective(t', n', t, n);
      }
    }
    forall e, l | e in expanded' && l in allLinks && Follows(l, e.0, e.1)
      ensures Key(PushFor(l, e.0, e.1).0, PushFor(l, e.0, e.1).1) in done' || PushFor(l, e.0, e.1) in queue + pushed
    {
      if e == (t, n) {
        if l in pool {
          assert l in multiset(pool);
          assert l !in multiset(kept);
          assert l in found;
          var i :| 0 <= i < |found| && found[i] == l;
          assert pushed[i] in queue + pushed;
        } else {
          assert multiset(pool)[l] == 0;
          assert l in multiset(allLinks);
          assert l in multiset(links);
          assert l in links;
          var e1 :| e1 in expanded && Follows(l, e1.0, e1.1);
          PushForOther(l, e1, t, n);
        }
      }
    }
  }

  /** The result of a walk is closed under its step: the ends of the emitted links that the
      model has are collected, and the other end of a link taken at an expanded node is
      expanded too unless it is a data node or the model lacks it. */
  ghost predicate Closed(model: NodeMap, allLinks: seq<Link>, nodes: NodeMap, links: seq<Link>, expanded: seq<(string, string)>)
  {
    && (forall l | l in links ::
          && (HasNode(model, l.sourceType, l.sourceName) ==> HasNode(nodes, l.sourceType, l.sourceName))
          && (HasNode(model, l.targetType, l.targetName) ==> HasNode(nodes, l.targetType, l.targetName)))
    && (forall e, l | e in expanded && l in allLinks && Follows(l, e.0, e.1) ::
          var q := PushFor(l, e.0, e.1);
          q.0 != DataNode && HasNode(model, q.0, q.1) ==> (q.0, q.1) in expanded)
  }

  /** `applyNode`'s result over a model with a node table and a link array is closed when
      the root and the links are clean. */
  ghost predicate ClosedWhenClean(dm: DisplayModel, nodeType: string, nodeName: string, r: DisplayModel, expanded: seq<(string, string)>)
  {
    dm.nodes.Some? && dm.links.Some? && Clean(dm.links.value, nodeType, nodeName) ==>
      r.nodes.Some? && r.links.Some? && Closed(dm.nodes.value, dm.links.value, r.nodes.value, r.links.value, expanded)
  }

  /** At the end of a clean walk its result is closed. */
  lemma ClosureDone(model: NodeMap, allLinks: seq<Link>, rt: string, rn: string,
                    nodes: NodeMap, links: seq<Link>, pool: seq<Link>, done: set<string>, expanded: seq<(string, string)>)
    requires Clean(allLinks, rt, rn)
    requires TraversalInv(model, allLinks, rt, rn, nodes, links, pool, [], done, expanded)
    requires ClosureInv(model, allLinks, nodes, [], done, expanded)
    ensures Closed(model, allLinks, nodes, links, expanded)
  {
    forall l | l in links
      ensures HasNode(model, l.sourceType, l.sourceName) ==> HasNode(nodes, l.sourceType, l.sourceName)
      ensures HasNode(model, l.targetType, l.targetName) ==> HasNode(nodes, l.targetType, l.targetName)
    {
      assert l in multiset(links);
      assert l in multiset(allLinks);
      var e :| e in expanded && Follows(l, e.0, e.1);
      LinkEndsDone(model, allLinks, rt, rn, nodes, done, expanded, l, e);
    }
    forall e, l | e in expanded && l in allLinks && Follows(l, e.0, e.1)
      ensures var q := PushFor(l, e.0, e.1); q.0 != DataNode && HasNode(model, q.0, q.1) ==> (q.0, q.1) in expanded
    {
      PushForEnds(l, e.0, e.1);
    }
  }

  /** Both ends of a link taken at an expanded node, at the end of a clean walk, are
      collected when the model has them. */
  lemma LinkEndsDone(model: NodeMap, allLinks: seq<Link>, rt: string, rn: string,
                     nodes: NodeMap, done: set<string>, expanded: seq<(string, string)>, l: Link, e: (string, string))
    requires Clean(allLinks, rt, rn)
    requires forall e | e in expanded :: HasNode(nodes, e.0, e.1)
    requires ClosureInv(model, allLinks, nodes, [], done, expanded)
    requires l in allLinks && e in expanded && Follows(l, e.0, e.1)
    ensures HasNode(model, l.sourceType, l.sourceName) ==> HasNode(nodes, l.sourceType, l.sourceName)
    ensures HasNode(model, l.targetType, l.targetName) ==> HasNode(nodes, l.targetType, l.targetName)
  {
    PushForEnds(l, e.0, e.1);
    var q := PushFor(l, e.0, e.1);
    assert HasNode(nodes, e.0, e.1);
    assert Key(q.0, q.1) in done;
  }

  /** The pending visits: the one about to be made, when there is one, then the queue. */
  function Pending(t: string, n: string, follow: bool, queue: seq<Item>): seq<Item>
  {
    (if t != "" && n != "" then [(t, n, follow)] else []) + queue
  }

  /** The walk's closure bookkeeping between two visits, for clean ends: a visit is about to
      be made unless the queue is empty. */
  ghost predicate PendingInv(model: NodeMap, allLinks: seq<Link>, rt: string, rn: string, nodes: NodeMap,
                             t: string, n: string, follow: bool, queue: seq<Item>, done: set<string>, expanded: seq<(string, string)>)
  {
    Clean(allLinks, rt, rn) ==>
      && ((t != "" && n != "") || queue == [])
      && ClosureInv(model, allLinks, nodes, Pending(t, n, follow, queue), done, expanded)
  }

  /** Taking the head of the queue as the next visit keeps the bookkeeping. */
  lemma Dequeue(model: NodeMap, allLinks: seq<Link>, rt: string, rn: string, nodes: NodeMap, links: seq<Link>,
                queue: seq<Item>, done: set<string>, expanded: seq<(string, string)>)
    requires |queue| > 0 && QueueInv(links, queue) && multiset(links) <= multiset(allLinks)
    requires Clean(allLinks, rt, rn) ==> ClosureInv(model, allLinks, nodes, queue, done, expanded)
    ensures PendingInv(model, allLinks, rt, rn, nodes, queue[0].0, queue[0].1, queue[0].2, queue[1..], done, expanded)
  {
    if Clean(allLinks, rt, rn) {
      QueueClean(allLinks, links, queue);
      assert Pending(queue[0].0, queue[0].1, queue[0].2, queue[1..]) == queue;
    }
  }

  /** Taking the head of the queue as the next visit keeps it reached from the root. */
  lemma DequeueReach(rt: string, rn: string, links: seq<Link>, expanded: seq<(string, string)>, queue: seq<Item>)
    requires |queue| > 0 && ReachInv(rt, rn, links, expanded, queue)
    ensures VisitReach(rt, rn, links, expanded, queue[0].0, queue[0].1) && ReachInv(rt, rn, links, expanded, queue[1..])
  {
    assert queue[0] in queue;
    assert forall q | q in queue[1..] :: q in queue;
  }

  /** The walk's state between two visits: the traversal's invariant, the visit about to
      be made, and the closure bookkeeping. */
  ghost predicate WalkInv(model: NodeMap, allLinks: seq<Link>, rt: string, rn: string,
                          nodes: NodeMap, links: seq<Link>, pool: seq<Link>, queue: seq<Item>, done: set<string>,
                          expanded: seq<(string, string)>, t: string, n: string, follow: bool)
  {
    && TraversalInv(model, allLinks, rt, rn, nodes, links, pool, queue, done, expanded)
    && (t != "" && n != "" ==> VisitOk(rt, rn, links, done, t, n, follow) && VisitReach(rt, rn, links, expanded, t, n))
    && ReachInv(rt, rn, links, expanded, queue)
    && PendingInv(model, allLinks, rt, rn, nodes, t, n, follow, queue, done, expanded)
  }

  /** One turn of the walk: visit (t, n), then take the next visit from the head of the
      queue, or none when it is empty. */
  method WalkStep(model: NodeMap, ghost allLinks: seq<Link>, ghost rt: string, ghost rn: string,
                  t: string, n: string, follow: bool,
                  nodes: NodeMap, links: seq<Link>, pool: seq<Link>, queue: seq<Item>, done: set<string>,
                  ghost expanded: seq<(string, string)>)
    returns (nodes': NodeMap, links': seq<Link>, pool': seq<Link>, queue': seq<Item>, done': set<string>,
             ghost expanded': seq<(string, string)>, t': string, n': string, follow': bool)
    requires t != "" && n != ""
    requires WalkInv(model, allLinks, rt, rn, nodes, links, pool, queue, done, expanded, t, n, follow)
    ensures WalkInv(model, allLinks, rt, rn, nodes', links', pool', queue', done', expanded', t', n', follow')
    ensures Key(rt, rn) in done'
    ensures |pool'| + |queue'| + (if t' != "" && n' != "" then 1 else 0) < |pool| + |queue| + 1
  {
    nodes', links', pool', queue', done', expanded' := Visit(model, allLinks, rt, rn, t, n, follow, nodes, links, pool, queue, done, expanded);
    if |queue'| > 0 {
      assert queue'[0] in queue';
      Dequeue(model, allLinks, rt, rn, nodes', links', queue', done', expanded');
      DequeueReach(rt, rn, links', expanded', queue');
      assert forall q | q in queue'[1..] :: q in queue';
      t', n', follow' := queue'[0].0, queue'[0].1, queue'[0].2;
      queue' := queue'[1..];
    } else {
      t', n', follow' := "", "", false;
    }
  }

  /** The worklist traversal from (nodeType, nodeName) over a model with a node table and a
      link list. */
  method Traverse(model: NodeMap, allLinks: seq<Link>, nodeType: string, nodeName: string)
    returns (nodes: NodeMap, links: seq<Link>, ghost expanded: seq<(string, string)>)
    ensures SubNodes(nodes, model)
    // every link of the model is emitted at most as often as it occurs in the model
    ensures multiset(links) <= multiset(allLinks)
    // no key is expanded twice
    ensures forall i, j | 0 <= i < j < |expanded| :: Key(expanded[i].0, expanded[i].1) != Key(expanded[j].0, expanded[j].1)
    // only the root may be expanded when it is a data node
    ensures forall e | e in expanded :: HasNode(nodes, e.0, e.1) && (e.0 != DataNode || e == (nodeType, nodeName))
    ensures forall t, n | HasNode(nodes, t, n) && (t != DataNode || (t, n) == (nodeType, nodeName)) :: (t, n) in expanded
    // every emitted link was taken at an expanded node ...
    ensures forall l | l in links :: exists e | e in expanded :: Follows(l, e.0, e.1)
    // ... and no link an expanded node takes is missed
    ensures forall e, l | e in expanded && l in allLinks && Follows(l, e.0, e.1) :: l in links
    // a node is in the result only as the root or as an end of an emitted link
    ensures forall t, n | HasNode(nodes, t, n) :: (t, n) == (nodeType, nodeName) || exists l | l in links :: Touches(l, t, n)
    ensures nodeType != "" && nodeName != "" && HasNode(model, nodeType, nodeName) ==> HasNode(nodes, nodeType, nodeName)
    ensures nodeType == "" || nodeName == "" ==> nodes == map[] && links == []
    // the root is expanded first, and each later expanded node is the other end of an
    // emitted link taken at an earlier one
    ensures |expanded| > 0 ==> expanded[0] == (nodeType, nodeName)
    ensures forall k | 0 < k < |expanded| :: exists j | 0 <= j < k :: Queues(links, expanded[j], expanded[k].0, expanded[k].1)
    // with clean ends, the result is closed under the walk's step
    ensures Clean(allLinks, nodeType, nodeName) ==> Closed(model, allLinks, nodes, links, expanded)
  {
    nodes, links, expanded := map[], [], [];
    var queue: seq<Item> := [];
    var done: set<string> := {};
    var pool := allLinks;
    var t, n, follow := nodeType, nodeName, true;
    ghost var started := false;
    while t != "" && n != ""
      invariant WalkInv(model, allLinks, nodeType, nodeName, nodes, links, pool, queue, done, expanded, t, n, follow)
      invariant !started ==> t == nodeType && n == nodeName && nodes == map[] && links == []
      invariant started ==> Key(nodeType, nodeName) in done
      invariant nodeType == "" || nodeName == "" ==> !started
      decreases |pool| + |queue| + (if t != "" && n != "" then 1 else 0)
    {
      nodes, links, pool, queue, done, expanded, t, n, follow := WalkStep(model, allLinks, nodeType, nodeName, t, n, follow, nodes, links, pool, queue, done, expanded);
      started := true;
    }
    if Clean(allLinks, nodeType, nodeName) {
      ClosureDone(model, allLinks, nodeType, nodeName, nodes, links, pool, done, expanded);
    }
    TakenEmitted(allLinks, links, pool, expanded);
  }

  /** At the end of the walk every link an expanded node takes has been emitted, and no link
      more often than the model has it. */
  lemma TakenEmitted(allLinks: seq<Link>, links: seq<Link>, pool: seq<Link>, expanded: seq<(string, string)>)
    requires LinksInv(allLinks, links, pool, expanded)
    ensures forall e, l | e in expanded && l in allLinks && Follows(l, e.0, e.1) :: l in links
    ensures multiset(links) <= multiset(allLinks)
  {
    forall e, l | e in expanded && l in allLinks && Follows(l, e.0, e.1) ensures l in links {
      assert l !in pool;
      assert multiset(pool)[l] == 0;
      assert l in multiset(allLinks);
      assert l in multiset(links);
    }
  }

  // ---------------------------------------------------------------------------
  // Removing the taken links from the pool as the source writes it: the indices are sorted
  // with `sort()` and no comparator, which orders numbers by their decimal text, then
  // reversed, and each is spliced out in turn.

  /** The order of `sort()` without a comparator: code-unit order of the texts. */
  predicate TextLess(a: string, b: string)
    decreases |a|
  {
    |b| > 0 && (|a| == 0 || a[0] < b[0] || (a[0] == b[0] && TextLess(a[1..], b[1..])))
  }

  function InsertByText(x: nat, s: seq<nat>): (r: seq<nat>)
    ensures |r| == |s| + 1
  {
    if s == [] then [x]
    else if TextLess(NatToString(x), NatToString(s[0])) then [x] + s
    else [s[0]] + InsertByText(x, s[1..])
  }

  /** `indices.sort()` on numbers. */
  function SortByText(s: seq<nat>): (r: seq<nat>)
    ensures |r| == |s|
  {
    if s == [] then [] else InsertByText(s[0], SortByText(s[1..]))
  }

  function Reverse<T>(s: seq<T>): (r: seq<T>)
    ensures |r| == |s| && forall i | 0 <= i < |s| :: r[i] == s[|s| - 1 - i]
  {
    if s == [] then [] else Reverse(s[1..]) + [s[0]]
  }

  /** `pool.splice(idx, 1)` for each index in turn; an index past the end removes nothing. */
  function SpliceEach(pool: seq<Link>, indices: seq<nat>): (r: seq<Link>)
    ensures |r| <= |pool| && |pool| <= |r| + |indices|
    ensures multiset(r) <= multiset(pool)
  {
    if indices == [] then pool
    else
      var idx := indices[0];
      assert idx < |pool| ==> pool == pool[..idx] + [pool[idx]] + pool[idx + 1..];
      SpliceEach(if idx < |pool| then pool[..idx] + pool[idx + 1..] else pool, indices[1..])
  }

  /** The pool left after a scan that took the links at `taken` (ascending), as written. */
  function RemoveTakenAsWritten(pool: seq<Link>, taken: seq<nat>): (r: seq<Link>)
    // only links of the pool are left, and at most one is removed per taken position
    ensures multiset(r) <= multiset(pool)
    ensures |r| <= |pool| <= |r| + |taken|
  {
    SpliceEach(pool, Reverse(SortByText(taken)))
  }

  /** With taken links at positions 2 and 10 of an 11-link pool, the text order puts 10
      before 2, the reversed order splices 2 first, and the link taken at position 10 (now
      at position 9) stays in the pool; a later expansion that takes it again emits it twice.
      `ScanPool` keeps exactly the links not taken. */
  lemma AsWrittenKeepsTakenLink(pool: seq<Link>)
    requires |pool| == 11
    ensures RemoveTakenAsWritten(pool, [2, 10]) == pool[..2] + pool[3..]
    ensures pool[10] in RemoveTakenAsWritten(pool, [2, 10])
  {
    assert NatToString(1) == "1";
    assert NatToString(10) == "10";
    assert NatToString(2) == "2";
    assert !TextLess("2", "10");
    assert SortByText([10]) == [10];
    assert InsertByText(2, [10]) == [10] + InsertByText(2, []);
    assert SortByText([2, 10]) == [10, 2];
    assert Reverse([10, 2]) == [2, 10];
    var p1 := pool[..2] + pool[3..];
    assert SpliceEach(pool, [2, 10]) == SpliceEach(p1, [10]);
    assert SpliceEach(p1, [10]) == SpliceEach(p1, []);
    assert p1[9] == pool[10];
  }

  /** What `applyNode` from (nodeType, nodeName) promises of its result `r` over the model
      `dm`, where `expanded` are the nodes whose links it followed, in order: the model itself
      when it lacks a node table or an array of links, and otherwise the walk's subgraph. */
  ghost predicate NodeResult(dm: DisplayModel, nodeType: string, nodeName: string, r: DisplayModel, expanded: seq<(string, string)>)
  {
    && (dm.nodes.None? || dm.links.None? ==> r == dm)
    && (dm.nodes.Some? && dm.links.Some? ==>
      && r.nodes.Some? && r.links.Some? && r.sequences == map[]
      && SubNodes(r.nodes.value, dm.nodes.value)
      && multiset(r.links.value) <= multiset(dm.links.value)
      // the root is expanded first, each later expanded node is the other end of an emitted
      // link taken at an earlier one, and none twice
      && (|expanded| > 0 ==> expanded[0] == (nodeType, nodeName))
      && (forall k | 0 < k < |expanded| :: exists j | 0 <= j < k :: Queues(r.links.value, expanded[j], expanded[k].0, expanded[k].1))
      && (forall i, j | 0 <= i < j < |expanded| :: Key(expanded[i].0, expanded[i].1) != Key(expanded[j].0, expanded[j].1))
      && (forall e | e in expanded :: HasNode(r.nodes.value, e.0, e.1) && (e.0 != DataNode || e == (nodeType, nodeName)))
      // the emitted links are exactly the model's links taken at expanded nodes
      && (forall l | l in r.links.value :: exists e | e in expanded :: Follows(l, e.0, e.1))
      && (forall e, l | e in expanded && l in dm.links.value && Follows(l, e.0, e.1) :: l in r.links.value)
      // a node is collected only as the root or as an end of an emitted link ...
      && (forall t, n | HasNode(r.nodes.value, t, n) :: (t, n) == (nodeType, nodeName) || exists l | l in r.links.value :: Touches(l, t, n))
      // ... the root is collected when the model has it, and a collected node is expanded
      // unless it is a data node other than the root
      && (nodeType != "" && nodeName != "" && HasNode(dm.nodes.value, nodeType, nodeName) ==> HasNode(r.nodes.value, nodeType, nodeName))
      && (forall t, n | HasNode(r.nodes.value, t, n) && (t != DataNode || (t, n) == (nodeType, nodeName)) :: (t, n) in expanded))
    && ClosedWhenClean(dm, nodeType, nodeName, r, expanded)
  }

  /** `applyNode`: the traversal, or the model itself when it lacks a node table or an array
      of links. The result never carries sequences. */
  method ApplyNode(dm: DisplayModel, nodeType: string, nodeName: string) returns (r: DisplayModel, ghost expanded: seq<(string, string)>)
    ensures NodeResult(dm, nodeType, nodeName, r, expanded)
  {
    if dm.nodes.None? || dm.links.None? {
      return dm, [];
    }
    var nodes, links;
    nodes, links, expanded := Traverse(dm.nodes.value, dm.links.value, nodeType, nodeName);
    r := DisplayModel(Some(nodes), Some(links), map[]);
  }

  /** A scenario whose task writes a data node: `applyNode` from the scenario collects the
      scenario, the task and the data node. */
  method ApplyNodeChain(dm: DisplayModel, s: string, t: string, d: string, m1: string, m2: string)
    returns (r: DisplayModel)
    requires dm.nodes.Some? && dm.links.Some? && Clean(dm.links.value, Scenario, s)
    requires HasNode(dm.nodes.value, Scenario, s) && HasNode(dm.nodes.value, Task, t) && HasNode(dm.nodes.value, DataNode, d)
    requires Link(Scenario, s, Task, t, m1) in dm.links.value && Link(Task, t, DataNode, d, m2) in dm.links.value
    ensures r.nodes.Some? && r.links.Some?
    ensures HasNode(r.nodes.value, Scenario, s) && HasNode(r.nodes.value, Task, t) && HasNode(r.nodes.value, DataNode, d)
  {
    ghost var expanded;
    r, expanded := ApplyNode(dm, Scenario, s);
    ChainCollected(dm, s, t, d, m1, m2, r, expanded);
  }

  /** Any result of `applyNode` from a scenario whose task writes a data node holds the three. */
  lemma ChainCollected(dm: DisplayModel, s: string, t: string, d: string, m1: string, m2: string,
                       r: DisplayModel, expanded: seq<(string, string)>)
    requires dm.nodes.Some? && dm.links.Some? && Clean(dm.links.value, Scenario, s)
    requires HasNode(dm.nodes.value, Scenario, s) && HasNode(dm.nodes.value, Task, t) && HasNode(dm.nodes.value, DataNode, d)
    requires Link(Scenario, s, Task, t, m1) in dm.links.value && Link(Task, t, DataNode, d, m2) in dm.links.value
    requires NodeResult(dm, Scenario, s, r, expanded)
    ensures r.nodes.Some? && r.links.Some?
    ensures HasNode(r.nodes.value, Scenario, s) && HasNode(r.nodes.value, Task, t) && HasNode(r.nodes.value, DataNode, d)
  {
    var l1, l2 := Link(Scenario, s, Task, t, m1), Link(Task, t, DataNode, d, m2);
    assert (Scenario, s) in expanded;
    assert Follows(l1, Scenario, s) && PushFor(l1, Scenario, s) == (Task, t, true);
    assert (Task, t) in expanded;
    assert Follows(l2, Task, t) && l2 in r.links.value;
  }

  // ---------------------------------------------------------------------------
  // applyPerspective

  datatype Perspective =
    | Thrown  // a TypeError escapes
    | Computed(model: Option<DisplayModel>, applied: Option<string>)

  /** An extra entity id `type.name` is merged only when both parts are non-empty. */
  predicate ValidExtra(e: string)
  {
    Head(e, '.') != "" && Second(e, '.').Some? && Second(e, '.').value != ""
  }

  function ExtraType(e: string): string
  {
    Head(e, '.')
  }

  function ExtraName(e: string): string
  {
    var s := Second(e, '.');
    if s.Some? then s.value else ""
  }

  /** The `;`-separated extra entities, none when the argument is absent or empty. */
  function ExtraList(extraEntities: Option<string>): seq<string>
  {
    if extraEntities.None? || extraEntities.value == "" then [] else Split(extraEntities.value, ';')
  }

  /** The key under which the root's sequence is looked up: the second piece of the id, or
      the text "undefined" when there is none. */
  function SequenceKey(perspectiveId: string): string
  {
    var s := Second(perspectiveId, '.');
    if s.Some? then s.value else "undefined"
  }

  /** `res.nodes[t][n] = d` for every node of `extra`. */
  function MergeNodes(base: NodeMap, extra: NodeMap): (r: NodeMap)
    ensures forall t, n | HasNode(base, t, n) || HasNode(extra, t, n) :: HasNode(r, t, n)
    ensures forall t, n | HasNode(r, t, n) :: (HasNode(extra, t, n) && r[t][n] == extra[t][n]) || (HasNode(base, t, n) && r[t][n] == base[t][n])
  {
    map t | t in base.Keys + extra.Keys :: if t in extra then (if t in base then base[t] + extra[t] else extra[t]) else base[t]
  }

  /** One extra entity of the loop in `applyPerspective`, for a model with a node table and
      a link list. */
  method MergeExtra(dm: DisplayModel, nodes: NodeMap, links: seq<Link>, e: string)
    returns (applied: bool, nodes': NodeMap, links': seq<Link>)
    requires dm.nodes.Some? && dm.links.Some?
    requires SubNodes(nodes, dm.nodes.value) && forall l | l in links :: l in dm.links.value
    ensures applied == (ValidExtra(e) && !HasNode(nodes, ExtraType(e), ExtraName(e)))
    ensures !applied ==> nodes' == nodes && links' == links
    ensures SubNodes(nodes', dm.nodes.value) && forall l | l in links' :: l in dm.links.value
    ensures forall t, n | HasNode(nodes, t, n) :: HasNode(nodes', t, n)
    ensures links <= links'
    // once merged, an entity of the model is present, so merging it again changes nothing
    ensures applied && HasNode(dm.nodes.value, ExtraType(e), ExtraName(e)) ==> HasNode(nodes', ExtraType(e), ExtraName(e))
  {
    var nt, nn := ExtraType(e), ExtraName(e);
    applied := ValidExtra(e) && !HasNode(nodes, nt, nn);
    if !applied {
      return applied, nodes, links;
    }
    var res, _ := ApplyNode(dm, nt, nn);
    nodes' := MergeNodes(nodes, res.nodes.value);
    links' := links + res.links.value;
    forall l | l in res.links.value ensures l in dm.links.value {
      assert l in multiset(res.links.value);
    }
  }

  /** The extra entities that are merged when each `extras[k]` meets the node table
      `states[k]`: the valid ids that table does not have yet. */
  function AppliedAt(extras: seq<string>, states: seq<NodeMap>): (r: seq<string>)
    requires |states| >= |extras|
    ensures |r| <= |extras|
    ensures forall e | e in r :: e in extras && ValidExtra(e)
    decreases |extras|
  {
    if extras == [] then []
    else
      var k := |extras| - 1;
      var e := extras[k];
      var r0 := AppliedAt(extras[..k], states);
      assert forall x | x in r0 :: x in extras by {
        forall x | x in r0 ensures x in extras {
          var j :| 0 <= j < k && extras[..k][j] == x;
          assert extras[j] == x;
        }
      }
      r0 + (if ValidExtra(e) && !HasNode(states[k], ExtraType(e), ExtraName(e)) then [e] else [])
  }

  /** Only the tables the extras met matter. */
  lemma {:induction false} AppliedAtSame(extras: seq<string>, states: seq<NodeMap>, states': seq<NodeMap>)
    requires |states| >= |extras| && |states'| >= |extras|
    requires forall k | 0 <= k < |extras| :: states[k] == states'[k]
    ensures AppliedAt(extras, states) == AppliedAt(extras, states')
    decreases |extras|
  {
    if extras != [] {
      AppliedAtSame(extras[..|extras| - 1], states, states');
    }
  }

  /** One merge of the extra entity `e` into the node table `before` gives `after`: nothing
      is lost, nothing changes unless `e` is merged, and a valid `e` the model has is then
      present. */
  ghost predicate MergeStep(model: NodeMap, before: NodeMap, after: NodeMap, e: string)
  {
    && (forall t, n | HasNode(before, t, n) :: HasNode(after, t, n))
    && (!(ValidExtra(e) && !HasNode(before, ExtraType(e), ExtraName(e))) ==> after == before)
    && (ValidExtra(e) && HasNode(model, ExtraType(e), ExtraName(e)) ==> HasNode(after, ExtraType(e), ExtraName(e)))
  }

  /** The merges of `extras`, in order, lead from the table `start` to `final` through
      `states`, and `appliedList` are the extras merged on the way. */
  ghost predicate MergedFrom(model: NodeMap, start: NodeMap, extras: seq<string>, states: seq<NodeMap>,
                             final: NodeMap, appliedList: seq<string>)
  {
    && |states| == |extras| + 1 && states[0] == start && states[|extras|] == final
    && (forall k | 0 <= k < |extras| :: MergeStep(model, states[k], states[k + 1], extras[k]))
    && appliedList == AppliedAt(extras, states)
  }

  /** After the merges every valid extra the model has is present, and none was merged
      exactly when every valid extra was there from the start, in which case nothing
      changed. */
  lemma MergedFromPresent(model: NodeMap, start: NodeMap, extras: seq<string>, states: seq<NodeMap>,
                          final: NodeMap, appliedList: seq<string>)
    requires MergedFrom(model, start, extras, states, final, appliedList)
    ensures forall k | 0 <= k < |extras| && ValidExtra(extras[k]) && HasNode(model, ExtraType(extras[k]), ExtraName(extras[k])) ::
      HasNode(final, ExtraType(extras[k]), ExtraName(extras[k]))
    ensures appliedList == [] <==> forall k | 0 <= k < |extras| :: !(ValidExtra(extras[k]) && !HasNode(start, ExtraType(extras[k]), ExtraName(extras[k])))
    ensures appliedList == [] ==> final == start
  {
    MergedPrefix(model, extras, states, |extras|);
    assert extras[..|extras|] == extras;
  }

  /** `MergedFromPresent` for the first `i` merges. */
  lemma {:induction false} MergedPrefix(model: NodeMap, extras: seq<string>, states: seq<NodeMap>, i: nat)
    requires |states| == |extras| + 1 && i <= |extras|
    requires forall k | 0 <= k < |extras| :: MergeStep(model, states[k], states[k + 1], extras[k])
    ensures forall k | 0 <= k < i && ValidExtra(extras[k]) && HasNode(model, ExtraType(extras[k]), ExtraName(extras[k])) ::
      HasNode(states[i], ExtraType(extras[k]), ExtraName(extras[k]))
    ensures AppliedAt(extras[..i], states) == [] <==>
      forall k | 0 <= k < i :: !(ValidExtra(extras[k]) && !HasNode(states[0], ExtraType(extras[k]), ExtraName(extras[k])))
    ensures AppliedAt(extras[..i], states) == [] ==> states[i] == states[0]
    decreases i
  {
    if i > 0 {
      MergedPrefix(model, extras, states, i - 1);
      var e := extras[i - 1];
      assert extras[..i][..i - 1] == extras[..i - 1];
      assert AppliedAt(extras[..i], states) == AppliedAt(extras[..i - 1], states)
        + (if ValidExtra(e) && !HasNode(states[i - 1], ExtraType(e), ExtraName(e)) then [e] else []);
      assert MergeStep(model, states[i - 1], states[i], e);
    }
  }

  /** The loop over the extra entities of `applyPerspective`, starting from the traversal's
      nodes (root bucket removed) and links. Without a link array the traversal returned the
      input model itself, and merging any extra entity into it throws. */
  method MergeExtras(dm: DisplayModel, nodes: NodeMap, links: Option<seq<Link>>, extras: seq<string>)
    returns (thrown: bool, nodes': NodeMap, links': Option<seq<Link>>, appliedList: seq<string>, ghost states: seq<NodeMap>)
    requires dm.nodes.Some?
    requires dm.links.None? ==> links.None?
    requires dm.links.Some? ==> links.Some? && SubNodes(nodes, dm.nodes.value) && forall l | l in links.value :: l in dm.links.value
    ensures dm.links.None? ==>
      && (thrown <==> exists e | e in extras :: ValidExtra(e) && !HasNode(nodes, ExtraType(e), ExtraName(e)))
      && nodes' == nodes && links' == links && appliedList == []
    ensures dm.links.Some? ==>
      && !thrown && links'.Some?
      // the links merged in are appended after the traversal's
      && links.value <= links'.value
      && SubNodes(nodes', dm.nodes.value)
      && (forall l | l in links'.value :: l in dm.links.value)
      && (forall t | t in nodes' && t !in nodes :: appliedList != [])
      && (forall e | e in appliedList :: e in extras && ValidExtra(e))
      && |appliedList| <= |extras|
      // the tables the merges pass through, from `nodes` to `nodes'`, one merge per extra;
      // the merged extras are, in order, those not present when their turn came
      && MergedFrom(dm.nodes.value, nodes, extras, states, nodes', appliedList)
      // every valid extra the model has is present at the end
      && (forall k | 0 <= k < |extras| && ValidExtra(extras[k]) && HasNode(dm.nodes.value, ExtraType(extras[k]), ExtraName(extras[k])) ::
            HasNode(nodes', ExtraType(extras[k]), ExtraName(extras[k])))
      // none is merged exactly when every valid extra is present from the start
      && (appliedList == [] <==> forall k | 0 <= k < |extras| :: !(ValidExtra(extras[k]) && !HasNode(nodes, ExtraType(extras[k]), ExtraName(extras[k]))))
  {
    thrown, nodes', links', appliedList, states := false, nodes, links, [], [nodes];
    var i := 0;
    while i < |extras|
      invariant 0 <= i <= |extras|
      invariant dm.links.None? ==> nodes' == nodes && links' == links && appliedList == []
      invariant dm.links.None? ==> forall k | 0 <= k < i :: !(ValidExtra(extras[k]) && !HasNode(nodes, ExtraType(extras[k]), ExtraName(extras[k])))
      invariant dm.links.Some? ==> links'.Some? && LinkedMerges(dm.nodes.value, dm.links.value, nodes, links.value, extras, i, nodes', links'.value, appliedList, states)
    {
      var e := extras[i];
      if dm.links.None? {
        if ValidExtra(e) && !HasNode(nodes, ExtraType(e), ExtraName(e)) {
          return true, nodes', links', appliedList, states;
        }
      } else {
        var l2;
        nodes', l2, appliedList, states := MergeAt(dm, nodes, links.value, extras, i, nodes', links'.value, appliedList, states);
        links' := Some(l2);
      }
      i := i + 1;
    }
    if dm.links.Some? {
      MergesDone(dm.nodes.value, nodes, extras, nodes', appliedList, states);
    }
  }

  /** One turn of the merge loop, for a model with a link array: merge `extras[i]` and note
      it when it was merged. */
  method MergeAt(dm: DisplayModel, nodes: NodeMap, ghost links: seq<Link>, extras: seq<string>, i: nat,
                 nodes': NodeMap, links': seq<Link>, appliedList: seq<string>, ghost states: seq<NodeMap>)
    returns (n2: NodeMap, l2: seq<Link>, list2: seq<string>, ghost states2: seq<NodeMap>)
    requires dm.nodes.Some? && dm.links.Some? && i < |extras|
    requires LinkedMerges(dm.nodes.value, dm.links.value, nodes, links, extras, i, nodes', links', appliedList, states)
    ensures LinkedMerges(dm.nodes.value, dm.links.value, nodes, links, extras, i + 1, n2, l2, list2, states2)
  {
    var e := extras[i];
    var applied;
    applied, n2, l2 := MergeExtra(dm, nodes', links', e);
    MergesNext(dm.nodes.value, nodes, extras, i, nodes', appliedList, states, applied, n2);
    list2 := appliedList + (if applied then [e] else []);
    states2 := states + [n2];
  }

  /** The merge loop's state when the model has a link array: the tables and links stay
      within the model's, and the links only grow at the end. */
  ghost predicate LinkedMerges(model: NodeMap, allLinks: seq<Link>, nodes: NodeMap, links: seq<Link>, extras: seq<string>, i: nat,
                               nodes': NodeMap, links': seq<Link>, appliedList: seq<string>, states: seq<NodeMap>)
  {
    && SubNodes(nodes', model) && (forall l | l in links' :: l in allLinks) && links <= links'
    && MergesInv(model, nodes, extras, i, nodes', appliedList, states)
  }

  /** After the last merge. */
  lemma MergesDone(model: NodeMap, nodes: NodeMap, extras: seq<string>, nodes': NodeMap, appliedList: seq<string>, states: seq<NodeMap>)
    requires MergesInv(model, nodes, extras, |extras|, nodes', appliedList, states)
    ensures MergedFrom(model, nodes, extras, states, nodes', appliedList)
    ensures forall k | 0 <= k < |extras| && ValidExtra(extras[k]) && HasNode(model, ExtraType(extras[k]), ExtraName(extras[k])) ::
      HasNode(nodes', ExtraType(extras[k]), ExtraName(extras[k]))
    ensures appliedList == [] <==> forall k | 0 <= k < |extras| :: !(ValidExtra(extras[k]) && !HasNode(nodes, ExtraType(extras[k]), ExtraName(extras[k])))
    ensures forall t | t in nodes' && t !in nodes :: appliedList != []
    ensures (forall e | e in appliedList :: e in extras && ValidExtra(e)) && |appliedList| <= |extras|
  {
    assert extras[..|extras|] == extras;
    MergedFromPresent(model, nodes, extras, states, nodes', appliedList);
  }

  /** The state of the merge loop after `i` extras: the tables met so far, one merge step
      apart, and the extras merged on the way. */
  ghost predicate MergesInv(model: NodeMap, nodes: NodeMap, extras: seq<string>, i: nat,
                            nodes': NodeMap, appliedList: seq<string>, states: seq<NodeMap>)
  {
    && i <= |extras| && |states| == i + 1 && states[0] == nodes && states[i] == nodes'
    && (forall k | 0 <= k < i :: MergeStep(model, states[k], states[k + 1], extras[k]))
    && appliedList == AppliedAt(extras[..i], states)
  }

  /** One more merge keeps the loop's state. */
  lemma MergesNext(model: NodeMap, nodes: NodeMap, extras: seq<string>, i: nat,
                   nodes': NodeMap, appliedList: seq<string>, states: seq<NodeMap>, applied: bool, n2: NodeMap)
    requires i < |extras| && MergesInv(model, nodes, extras, i, nodes', appliedList, states)
    requires applied == (ValidExtra(extras[i]) && !HasNode(nodes', ExtraType(extras[i]), ExtraName(extras[i])))
    requires !applied ==> n2 == nodes'
    requires forall t, n | HasNode(nodes', t, n) :: HasNode(n2, t, n)
    requires applied && HasNode(model, ExtraType(extras[i]), ExtraName(extras[i])) ==> HasNode(n2, ExtraType(extras[i]), ExtraName(extras[i]))
    ensures MergesInv(model, nodes, extras, i + 1, n2, appliedList + (if applied then [extras[i]] else []), states + [n2])
  {
    var states' := states + [n2];
    var e := extras[i];
    assert MergeStep(model, states'[i], states'[i + 1], e);
    forall k | 0 <= k < i ensures MergeStep(model, states'[k], states'[k + 1], extras[k]) {
      assert states'[k] == states[k] && states'[k + 1] == states[k + 1];
    }
    AppliedAtNext(extras, i, states, states');
  }

  /** The merged extras after `i + 1` merges: those after `i`, then `extras[i]` when the
      table it met lacks it. */
  lemma AppliedAtNext(extras: seq<string>, i: nat, states: seq<NodeMap>, states': seq<NodeMap>)
    requires i < |extras| && |states| == i + 1 && |states'| == i + 2 && states'[..i + 1] == states
    ensures var e := extras[i];
      AppliedAt(extras[..i + 1], states') == AppliedAt(extras[..i], states)
        + (if ValidExtra(e) && !HasNode(states[i], ExtraType(e), ExtraName(e)) then [e] else [])
  {
    assert extras[..i + 1][..i] == extras[..i];
    assert forall k | 0 <= k < i :: states[k] == states'[..i + 1][k];
    AppliedAtSame(extras[..i], states, states');
  }

  /** `applyPerspective`: the perspective's subgraph, with the ids of the extra entities that
      were merged. `base` is what `applyNode` from the perspective's root returned, and
      `expanded` the nodes it expanded. */
  method ApplyPerspective(dm: Option<DisplayModel>, perspectiveId: string, extraEntities: Option<string>, isRoot: string -> bool)
    returns (out: Perspective, appliedList: seq<string>, ghost states: seq<NodeMap>,
             ghost base: DisplayModel, ghost expanded: seq<(string, string)>)
    ensures dm.None? || isRoot(perspectiveId) ==> out == Computed(dm, None) && appliedList == []
    ensures dm.Some? && !isRoot(perspectiveId) ==> NodeResult(dm.value, Head(perspectiveId, '.'), ExtraName(perspectiveId), base, expanded)
    ensures dm.Some? && !isRoot(perspectiveId) && dm.value.nodes.None? ==> out == Thrown
    // without a link array the input model is returned minus the root bucket, unless an
    // extra entity would be merged: the merge then throws
    ensures dm.Some? && !isRoot(perspectiveId) && dm.value.nodes.Some? && dm.value.links.None? ==>
      && (out.Thrown? <==> exists e | e in ExtraList(extraEntities) ::
            ValidExtra(e) && !HasNode(dm.value.nodes.value - {Head(perspectiveId, '.')}, ExtraType(e), ExtraName(e)))
      && (out.Computed? ==> out == Computed(Some(dm.value.(nodes := Some(dm.value.nodes.value - {Head(perspectiveId, '.')}))), None))
    ensures dm.Some? && !isRoot(perspectiveId) && dm.value.nodes.Some? && dm.value.links.Some? ==>
      && out.Computed? && out.model.Some?
      && out.model.value.nodes.Some? && out.model.value.links.Some?
      && SubNodes(out.model.value.nodes.value, dm.value.nodes.value)
      && (forall l | l in out.model.value.links.value :: l in dm.value.links.value)
      && out.model.value.sequences == SequenceOf(dm.value, perspectiveId)
      // the root's own bucket is gone unless an extra entity brought nodes of that type back
      && (Head(perspectiveId, '.') in out.model.value.nodes.value ==> appliedList != [])
      && out.applied == (if appliedList == [] then None else Some(Join(appliedList, ";")))
      && (forall e | e in appliedList :: e in ExtraList(extraEntities) && ValidExtra(e))
      && |appliedList| <= |ExtraList(extraEntities)|
      // the merges start from the traversal's nodes without the root's bucket, and each extra
      // is merged into the table it meets; the traversal's links come first
      && |states| > 0 && states[0] == base.nodes.value - {Head(perspectiveId, '.')}
      && base.links.value <= out.model.value.links.value
      && MergedFrom(dm.value.nodes.value, states[0], ExtraList(extraEntities), states, out.model.value.nodes.value, appliedList)
  {
    appliedList, states, base, expanded := [], [], DisplayModel(None, None, map[]), [];
    if dm.None? || isRoot(perspectiveId) {
      return Computed(dm, None), appliedList, states, base, expanded;
    }
    var model := dm.value;
    var nodeType := Head(perspectiveId, '.');
    var res;
    res, expanded := ApplyNode(model, nodeType, ExtraName(perspectiveId));
    base := res;
    if res.nodes.None? {
      return Thrown, appliedList, states, base, expanded;
    }
    if model.links.Some? {
      forall l | l in res.links.value ensures l in model.links.value {
        assert l in multiset(res.links.value);
      }
    }
    var thrown, nodes, links;
    thrown, nodes, links, appliedList, states := MergeExtras(model, res.nodes.value - {nodeType}, res.links, ExtraList(extraEntities));
    if thrown {
      return Thrown, appliedList, states, base, expanded;
    }
    var sequences := res.sequences;
    var key := SequenceKey(perspectiveId);
    if key in model.sequences {
      sequences := sequences[key := model.sequences[key]];
    }
    var r := DisplayModel(Some(nodes), links, sequences);
    out := Computed(Some(r), if appliedList == [] then None else Some(Join(appliedList, ";")));
    if model.links.None? {
      assert sequences == model.sequences;
    }
  }

  /** The perspective of a scenario whose task writes a data node shows the task and the data
      node, but not the scenario: its bucket is removed and no extra entity brings it back. */
  method ApplyPerspectiveChain(dm: DisplayModel, s: string, t: string, d: string, m1: string, m2: string, isRoot: string -> bool)
    returns (out: Perspective)
    requires '.' !in s && !isRoot(Scenario + "." + s)
    requires dm.nodes.Some? && dm.links.Some? && Clean(dm.links.value, Scenario, s)
    requires HasNode(dm.nodes.value, Scenario, s) && HasNode(dm.nodes.value, Task, t) && HasNode(dm.nodes.value, DataNode, d)
    requires Link(Scenario, s, Task, t, m1) in dm.links.value && Link(Task, t, DataNode, d, m2) in dm.links.value
    ensures out.Computed? && out.model.Some? && out.model.value.nodes.Some?
    ensures HasNode(out.model.value.nodes.value, Task, t) && HasNode(out.model.value.nodes.value, DataNode, d)
    ensures !HasNode(out.model.value.nodes.value, Scenario, s)
  {
    var id := Scenario + "." + s;
    ScenarioId(s);
    var appliedList;
    ghost var states, base, expanded;
    out, appliedList, states, base, expanded := ApplyPerspective(Some(dm), id, None, isRoot);
    ChainCollected(dm, s, t, d, m1, m2, base, expanded);
    assert ExtraList(None) == [] && |states| == 1;
    assert out.model.value.nodes.value == base.nodes.value - {Scenario};
    assert Task != Scenario && DataNode != Scenario;
  }

  /** The id `SCENARIO.s` splits into its type and name. */
  lemma ScenarioId(s: string)
    requires '.' !in s
    ensures Head(Scenario + "." + s, '.') == Scenario && ExtraName(Scenario + "." + s) == s
  {
    assert Join([Scenario, s], ['.']) == Scenario + "." + s;
    SplitJoin([Scenario, s], '.');
  }

  /** The sequences of a perspective's result: the root's entry of the model, if any. */
  function SequenceOf(model: DisplayModel, perspectiveId: string): (r: map<string, seq<string>>)
    ensures |r| <= 1
    ensures forall k | k in r :: k == SequenceKey(perspectiveId) && k in model.sequences && r[k] == model.sequences[k]
    ensures SequenceKey(perspectiveId) in model.sequences ==> SequenceKey(perspectiveId) in r
  {
    var key := SequenceKey(perspectiveId);
    if key in model.sequences then map[key := model.sequences[key]] else map[]
  }

  /** `getNodeTypes`: the order in which node types are laid out, by the perspective's type;
      `rootId` is the id of the whole-document perspective. */
  function GetNodeTypes(perspectiveId: string, rootId: string): (r: seq<string>)
    ensures Head(perspectiveId, '.') == Scenario && rootId != Scenario ==> r == [Sequence, Task, DataNode]
    ensures Head(perspectiveId, '.') != Scenario || rootId == Scenario ==> r == [Scenario, Task, DataNode]
  {
    var ordered := map[Scenario := [Sequence, Task, DataNode]][rootId := [Scenario, Task, DataNode]];
    var t := Head(perspectiveId, '.');
    if t in ordered then ordered[t] else ordered[rootId]
  }
}
