/** Cheapest-first search with a priority queue, as the planners run it: what holds of the table and the queue between
    any two steps, and what a finished or interrupted search proves. Items of equal cost may leave the queue in any
    order. */
module CheapestSearch {
  import opened Wrappers
  import opened StackSteps

  datatype Entry<N> = Entry(cost: Cost, predecessor: Option<N>, incoming: Step)

  datatype QueueItem<N> = QueueItem(cost: Cost, node: N)

  /** moves lists the steps tried at a node; steps that would reach the byte limit are not taken. */
  datatype Graph<!N(==)> =
    Graph(nodes: set<N>, start: N, moves: N -> seq<Step>, next: (N, Step) -> N, limit: Option<nat>)

  predicate Within(limit: Option<nat>, c: Cost) {
    limit.Some? ==> c.bytes < limit.value
  }

  ghost predicate ProperStep<N>(g: Graph<N>, x: N, op: Step) {
    g.next(x, op) in g.nodes && StepBytes(op) >= 1
  }

  ghost predicate Proper<N>(g: Graph<N>) {
    g.start in g.nodes && forall x, op :: x in g.nodes && op in g.moves(x) ==> ProperStep(g, x, op)
  }

  // ----- order of costs -----

  predicate AtMost(a: Cost, b: Cost) {
    !Less(b, a)
  }

  lemma AtMostOrder(a: Cost, b: Cost, c: Cost)
    ensures AtMost(a, a) && (AtMost(a, b) || Less(b, a)) && (Less(a, b) ==> AtMost(a, b))
    ensures AtMost(a, b) && AtMost(b, c) ==> AtMost(a, c)
    ensures AtMost(a, b) && Less(b, c) ==> Less(a, c)
    ensures Less(a, b) && AtMost(b, c) ==> Less(a, c)
  {
  }

  lemma ExtendGrows(a: Cost, op: Step)
    requires StepBytes(op) >= 1
    ensures Less(a, Extend(a, op)) && a.bytes < Extend(a, op).bytes
  {
    hide StepBytes;
  }

  // ----- the table -----

  /** No taken step out of x improves the table. */
  ghost predicate RelaxedBy<N>(g: Graph<N>, e: map<N, Entry<N>>, x: N, op: Step)
    requires x in e
  {
    Within(g.limit, Extend(e[x].cost, op)) ==>
      g.next(x, op) in e && AtMost(e[g.next(x, op)].cost, Extend(e[x].cost, op))
  }

  /** Every entry but the start continues one that was cheaper. */
  ghost predicate LinkedAt<N>(g: Graph<N>, e: map<N, Entry<N>>, x: N)
    requires x in e
  {
    && e[x].predecessor.Some? && e[x].predecessor.value in e
    && e[x].incoming in g.moves(e[x].predecessor.value) && g.next(e[x].predecessor.value, e[x].incoming) == x
    && AtMost(Extend(e[e[x].predecessor.value].cost, e[x].incoming), e[x].cost)
    && Within(g.limit, e[x].cost)
  }

  ghost predicate Linked<N>(g: Graph<N>, e: map<N, Entry<N>>) {
    && e.Keys <= g.nodes && g.start in e && e[g.start].cost == ZERO
    && forall x :: x in e && x != g.start ==> LinkedAt(g, e, x)
  }

  ghost predicate AllRelaxed<N>(g: Graph<N>, e: map<N, Entry<N>>, x: N)
    requires x in e
  {
    forall op :: op in g.moves(x) ==> RelaxedBy(g, e, x, op)
  }

  ghost predicate Closed<N>(g: Graph<N>, e: map<N, Entry<N>>) {
    forall x :: x in e ==> AllRelaxed(g, e, x)
  }

  ghost predicate NoneBelow<N>(queue: set<QueueItem<N>>, cost: Cost) {
    forall item :: item in queue ==> AtMost(cost, item.cost)
  }

  ghost predicate SettledAt<N>(g: Graph<N>, e: map<N, Entry<N>>, queue: set<QueueItem<N>>, x: N) {
    && x in e && QueueItem(e[x].cost, x) !in queue && AllRelaxed(g, e, x) && NoneBelow(queue, e[x].cost)
  }

  ghost predicate AllSettled<N>(g: Graph<N>, e: map<N, Entry<N>>, queue: set<QueueItem<N>>, settled: set<N>) {
    forall x :: x in settled ==> SettledAt(g, e, queue, x)
  }

  /** Items never beat their entry. */
  ghost predicate QueueSound<N>(e: map<N, Entry<N>>, queue: set<QueueItem<N>>) {
    forall item :: item in queue ==> item.node in e && AtMost(e[item.node].cost, item.cost)
  }

  /** Whatever is not settled is still queued, except for the node being expanded. */
  ghost predicate OthersQueued<N>(e: map<N, Entry<N>>, queue: set<QueueItem<N>>, settled: set<N>,
                                  expanding: Option<N>)
  {
    forall x :: x in e && x !in settled && Some(x) != expanding ==> QueueItem(e[x].cost, x) in queue
  }

  ghost predicate Searching<N>(g: Graph<N>, e: map<N, Entry<N>>, queue: set<QueueItem<N>>, settled: set<N>,
                               expanding: Option<N>) {
    && Proper(g) && Linked(g, e) && QueueSound(e, queue)
    && AllSettled(g, e, queue, settled) && OthersQueued(e, queue, settled, expanding)
  }

  ghost predicate SettledBelow<N>(e: map<N, Entry<N>>, settled: set<N>, cost: Cost) {
    forall x :: x in settled ==> x in e && AtMost(e[x].cost, cost)
  }

  /** The first k moves out of x are done. */
  ghost predicate FirstRelaxed<N>(g: Graph<N>, e: map<N, Entry<N>>, x: N, k: nat)
    requires x in e
  {
    k <= |g.moves(x)| && forall j :: 0 <= j < k ==> RelaxedBy(g, e, x, g.moves(x)[j])
  }

  ghost predicate Expanding<N>(g: Graph<N>, e: map<N, Entry<N>>, queue: set<QueueItem<N>>, settled: set<N>, x: N,
                               cost: Cost, k: nat) {
    && Searching(g, e, queue, settled, Some(x))
    && x in e && e[x].cost == cost && x !in settled && QueueItem(cost, x) !in queue
    && NoneBelow(queue, cost) && SettledBelow(e, settled, cost) && FirstRelaxed(g, e, x, k)
  }

  predicate IsLeast<N(==)>(item: QueueItem<N>, queue: set<QueueItem<N>>) {
    item in queue && forall other :: other in queue ==> AtMost(item.cost, other.cost)
  }

  lemma {:induction false} LeastExists<N>(queue: set<QueueItem<N>>) returns (least: QueueItem<N>)
    requires queue != {}
    ensures least in queue && IsLeast(least, queue)
    decreases |queue|
  {
    hide AtMost;
    var one :| one in queue;
    var rest := queue - {one};
    AtMostOrder(one.cost, one.cost, one.cost);
    if rest == {} {
      least := one;
      assert queue == {one};
    } else {
      var other := LeastExists(rest);
      least := if Less(one.cost, other.cost) then one else other;
      forall o | o in queue ensures AtMost(least.cost, o.cost) {
        assert o == one || o in rest;
        AtMostOrder(one.cost, other.cost, o.cost);
        AtMostOrder(other.cost, one.cost, o.cost);
      }
    }
  }

  // ----- one relaxation -----

  ghost predicate Improves<N>(g: Graph<N>, e: map<N, Entry<N>>, x: N, op: Step) {
    && x in e && Within(g.limit, Extend(e[x].cost, op))
    && (g.next(x, op) in e ==> Less(Extend(e[x].cost, op), e[g.next(x, op)].cost))
  }

  /** A node that can still be improved is neither the start, nor settled, nor the one being expanded. */
  lemma ImprovedIsOpen<N>(g: Graph<N>, e: map<N, Entry<N>>, queue: set<QueueItem<N>>, settled: set<N>, x: N, cost: Cost,
                          k: nat, op: Step)
    requires Expanding(g, e, queue, settled, x, cost, k) && op in g.moves(x) && Improves(g, e, x, op)
    ensures g.next(x, op) != g.start && g.next(x, op) != x && g.next(x, op) !in settled
    ensures g.next(x, op) in e ==> Less(Extend(cost, op), e[g.next(x, op)].cost)
    ensures Less(cost, Extend(cost, op))
  {
    hide AllSettled, QueueSound, OthersQueued, LinkedAt, FirstRelaxed, Extend, AtMost, Less;
    assert ProperStep(g, x, op);
    ExtendGrows(cost, op);
    var y := g.next(x, op);
    if y in e {
      AtMostOrder(e[y].cost, cost, Extend(cost, op));
      AtMostOrder(Extend(cost, op), e[y].cost, Extend(cost, op));
      NothingBelowZero(Extend(cost, op));
      IsNotLess(Extend(cost, op));
      IsNotLess(e[y].cost);
    }
  }

  lemma NothingBelowZero(c: Cost)
    ensures !Less(c, ZERO)
  {
  }

  lemma IsNotLess(c: Cost)
    ensures !Less(c, c)
  {
  }

  lemma ImproveKeepsLinks<N>(g: Graph<N>, e: map<N, Entry<N>>, x: N, op: Step)
    requires Proper(g) && Linked(g, e) && Improves(g, e, x, op) && op in g.moves(x)
    requires g.next(x, op) != g.start && g.next(x, op) != x
    ensures Linked(g, e[g.next(x, op) := Entry(Extend(e[x].cost, op), Some(x), op)])
  {
    hide Extend, Less, AtMost;
    var y := g.next(x, op);
    var f := e[y := Entry(Extend(e[x].cost, op), Some(x), op)];
    assert ProperStep(g, x, op);
    AtMostOrder(Extend(e[x].cost, op), Extend(e[x].cost, op), Extend(e[x].cost, op));
    forall z | z in f && z != g.start ensures LinkedAt(g, f, z) {
      if z != y {
        assert LinkedAt(g, e, z);
        var back, step := e[z].predecessor.value, e[z].incoming;
        AtMostOrder(f[back].cost, e[back].cost, e[back].cost);
        ExtendKeepsAtMost(f[back].cost, e[back].cost, step);
        AtMostOrder(Extend(f[back].cost, step), Extend(e[back].cost, step), e[z].cost);
      }
    }
  }

  lemma ExtendKeepsAtMost(a: Cost, b: Cost, op: Step)
    ensures AtMost(a, b) ==> AtMost(Extend(a, op), Extend(b, op))
  {
    hide Extend, Less;
    if AtMost(a, b) {
      ExtendIsMonotone(a, b, op);
    }
  }

  lemma ImproveKeepsSettled<N>(g: Graph<N>, e: map<N, Entry<N>>, queue: set<QueueItem<N>>, x: N, y: N, better: Entry<N>)
    requires SettledAt(g, e, queue, x) && y != x
    requires y in e ==> Less(better.cost, e[y].cost)
    requires AtMost(e[x].cost, better.cost)
    ensures SettledAt(g, e[y := better], queue + {QueueItem(better.cost, y)}, x)
  {
    hide Extend, Less, AtMost;
    var f := e[y := better];
    forall op | op in g.moves(x) ensures RelaxedBy(g, f, x, op) {
      assert RelaxedBy(g, e, x, op);
      if y in e {
        AtMostOrder(better.cost, e[y].cost, Extend(e[x].cost, op));
      }
    }
  }

  lemma ImproveKeepsQueue<N>(e: map<N, Entry<N>>, queue: set<QueueItem<N>>, settled: set<N>, x: N, y: N,
                             better: Entry<N>)
    requires QueueSound(e, queue) && OthersQueued(e, queue, settled, Some(x))
    requires y in e ==> Less(better.cost, e[y].cost)
    ensures QueueSound(e[y := better], queue + {QueueItem(better.cost, y)})
    ensures OthersQueued(e[y := better], queue + {QueueItem(better.cost, y)}, settled, Some(x))
  {
    hide Less, AtMost;
    AtMostOrder(better.cost, better.cost, better.cost);
    forall item | item in queue && item.node == y ensures AtMost(better.cost, item.cost) {
      AtMostOrder(better.cost, e[y].cost, item.cost);
    }
  }

  lemma ImproveKeepsRelaxed<N>(g: Graph<N>, e: map<N, Entry<N>>, x: N, k: nat, op: Step)
    requires Improves(g, e, x, op) && FirstRelaxed(g, e, x, k)
    requires k < |g.moves(x)| && op == g.moves(x)[k] && g.next(x, op) != x
    ensures FirstRelaxed(g, e[g.next(x, op) := Entry(Extend(e[x].cost, op), Some(x), op)], x, k + 1)
  {
    hide Extend, Less, AtMost;
    var better := Extend(e[x].cost, op);
    var y := g.next(x, op);
    var f := e[y := Entry(better, Some(x), op)];
    AtMostOrder(better, better, better);
    forall j | 0 <= j < k + 1 ensures RelaxedBy(g, f, x, g.moves(x)[j]) {
      if j < k {
        assert RelaxedBy(g, e, x, g.moves(x)[j]);
        if y in e {
          AtMostOrder(better, e[y].cost, Extend(e[x].cost, g.moves(x)[j]));
        }
      }
    }
  }

  lemma ImproveKeepsAllSettled<N>(g: Graph<N>, e: map<N, Entry<N>>, queue: set<QueueItem<N>>, settled: set<N>, y: N,
                                  cost: Cost, better: Entry<N>)
    requires AllSettled(g, e, queue, settled) && SettledBelow(e, settled, cost)
    requires y !in settled && Less(cost, better.cost) && (y in e ==> Less(better.cost, e[y].cost))
    ensures AllSettled(g, e[y := better], queue + {QueueItem(better.cost, y)}, settled)
    ensures SettledBelow(e[y := better], settled, cost)
  {
    hide Less, AtMost, SettledAt;
    AtMostOrder(cost, better.cost, better.cost);
    forall z | z in settled ensures SettledAt(g, e[y := better], queue + {QueueItem(better.cost, y)}, z) {
      AtMostOrder(e[z].cost, cost, better.cost);
      ImproveKeepsSettled(g, e, queue, z, y, better);
    }
  }

  /** Improving one entry and queueing it keeps everything else that is known. */
  lemma Improve<N>(g: Graph<N>, e: map<N, Entry<N>>, queue: set<QueueItem<N>>, settled: set<N>, x: N, cost: Cost,
                   k: nat,
                   op: Step)
    requires Expanding(g, e, queue, settled, x, cost, k) && k < |g.moves(x)| && op == g.moves(x)[k]
    requires Improves(g, e, x, op)
    ensures Expanding(g, e[g.next(x, op) := Entry(Extend(cost, op), Some(x), op)],
                      queue + {QueueItem(Extend(cost, op), g.next(x, op))}, settled, x, cost, k + 1)
  {
    hide Extend, Less, AtMost, AllSettled, SettledBelow, Linked, QueueSound, OthersQueued, FirstRelaxed, Proper,
      Improves;
    var y := g.next(x, op);
    var better := Extend(cost, op);
    ImprovedIsOpen(g, e, queue, settled, x, cost, k, op);
    ImproveKeepsLinks(g, e, x, op);
    ImproveKeepsQueue(e, queue, settled, x, y, Entry(better, Some(x), op));
    ImproveKeepsRelaxed(g, e, x, k, op);
    ImproveKeepsAllSettled(g, e, queue, settled, y, cost, Entry(better, Some(x), op));
    AtMostOrder(cost, better, better);
  }

  lemma Keep<N>(g: Graph<N>, e: map<N, Entry<N>>, queue: set<QueueItem<N>>, settled: set<N>, x: N, cost: Cost, k: nat,
                op: Step)
    requires Expanding(g, e, queue, settled, x, cost, k) && k < |g.moves(x)| && op == g.moves(x)[k]
    requires !Improves(g, e, x, op)
    ensures Expanding(g, e, queue, settled, x, cost, k + 1)
  {
    hide Extend, Searching;
  }

  // ----- taking an item from the queue -----

  lemma FewerItems<N>(g: Graph<N>, e: map<N, Entry<N>>, queue: set<QueueItem<N>>, settled: set<N>, item: QueueItem<N>)
    requires AllSettled(g, e, queue, settled) && QueueSound(e, queue)
    ensures AllSettled(g, e, queue - {item}, settled) && QueueSound(e, queue - {item})
  {
    hide AtMost, AllRelaxed;
    forall x | x in settled ensures SettledAt(g, e, queue - {item}, x) {
      assert SettledAt(g, e, queue, x);
    }
  }

  /** An item that no longer matches its entry can be dropped. */
  lemma DropStale<N>(g: Graph<N>, e: map<N, Entry<N>>, queue: set<QueueItem<N>>, settled: set<N>, item: QueueItem<N>)
    requires Searching(g, e, queue, settled, None) && item in queue && e[item.node].cost != item.cost
    ensures Searching(g, e, queue - {item}, settled, None)
  {
    hide AtMost, AllSettled, Linked, QueueSound, Proper;
    FewerItems(g, e, queue, settled, item);
  }

  /** The least item, when it is live, starts an expansion. */
  lemma StartExpanding<N>(g: Graph<N>, e: map<N, Entry<N>>, queue: set<QueueItem<N>>, settled: set<N>,
                          item: QueueItem<N>)
    requires Searching(g, e, queue, settled, None) && IsLeast(item, queue) && item.cost == e[item.node].cost
    ensures Expanding(g, e, queue - {item}, settled, item.node, item.cost, 0)
  {
    hide AtMost, AllRelaxed, Linked, Proper;
    FewerItems(g, e, queue, settled, item);
    forall x | x in settled ensures SettledAt(g, e, queue, x) && AtMost(e[x].cost, item.cost) {
    }
  }

  lemma FinishExpanding<N>(g: Graph<N>, e: map<N, Entry<N>>, queue: set<QueueItem<N>>, settled: set<N>, x: N,
                           cost: Cost)
    requires Expanding(g, e, queue, settled, x, cost, |g.moves(x)|)
    ensures Searching(g, e, queue, settled + {x}, None)
  {
    hide AtMost, Linked, QueueSound, Proper, RelaxedBy;
    assert SettledAt(g, e, queue, x);
  }

  lemma StartSearching<N>(g: Graph<N>, nowhere: Step)
    requires Proper(g)
    ensures Searching(g, map[g.start := Entry(ZERO, None, nowhere)], {QueueItem(ZERO, g.start)}, {}, None)
  {
  }

  /** Facts the loops use about an item taken from the queue. */
  lemma TakenItem<N>(g: Graph<N>, e: map<N, Entry<N>>, queue: set<QueueItem<N>>, settled: set<N>, item: QueueItem<N>)
    requires Searching(g, e, queue, settled, None) && item in queue
    ensures item.node in e && item.node in g.nodes
    ensures e[item.node].cost == item.cost ==> |g.nodes - settled - {item.node}| < |g.nodes - settled|
  {
    hide AtMost, AllRelaxed;
    if e[item.node].cost == item.cost {
      assert item.node !in settled;
      assert g.nodes - settled == (g.nodes - settled - {item.node}) + {item.node};
    }
  }

  lemma EmptyQueueIsClosed<N>(g: Graph<N>, e: map<N, Entry<N>>, settled: set<N>)
    requires Searching(g, e, {}, settled, None)
    ensures Linked(g, e) && Closed(g, e)
  {
    hide AllRelaxed;
    forall x | x in e ensures AllRelaxed(g, e, x) {
      assert SettledAt(g, e, {}, x);
    }
  }

  // ----- what the table bounds -----

  /** The table lists x at a cost of at most c. */
  predicate CostsAtMost<N(==)>(e: map<N, Entry<N>>, x: N, c: Cost) {
    x in e && AtMost(e[x].cost, c)
  }

  /** A taken step out of a settled node leads to a node that costs no more than the step makes it. */
  lemma RelaxedStep<N>(g: Graph<N>, e: map<N, Entry<N>>, x: N, c: Cost, op: Step)
    requires CostsAtMost(e, x, c) && AllRelaxed(g, e, x) && op in g.moves(x)
    requires Within(g.limit, Extend(c, op))
    ensures CostsAtMost(e, g.next(x, op), Extend(c, op))
  {
    assert e[x].cost.bytes <= c.bytes;
    BytesGrowTogether(e[x].cost, c, op);
    hide Extend, AtMost;
    ExtendKeepsAtMost(e[x].cost, c, op);
    assert RelaxedBy(g, e, x, op);
    AtMostOrder(e[g.next(x, op)].cost, Extend(e[x].cost, op), Extend(c, op));
  }

  lemma BytesGrowTogether(a: Cost, b: Cost, op: Step)
    requires a.bytes <= b.bytes
    ensures Extend(a, op).bytes <= Extend(b, op).bytes
  {
    hide StepBytes;
  }

  /** The entry a predecessor chain continues is strictly cheaper, so following the chain ends at the start. */
  lemma ChainStep<N>(g: Graph<N>, e: map<N, Entry<N>>, x: N)
    requires Proper(g) && Linked(g, e) && x in e && x != g.start
    ensures LinkedAt(g, e, x) && e[e[x].predecessor.value].cost.bytes < e[x].cost.bytes
    ensures x in g.nodes && e[x].predecessor.value in g.nodes
  {
    var back, op := e[x].predecessor.value, e[x].incoming;
    assert LinkedAt(g, e, x);
    assert ProperStep(g, back, op);
    ExtendGrows(e[back].cost, op);
  }
}
