/** The memory graph's data: links, units and their invariants (`hippmem-core/src/model`). */
module MemoryModel {

  type Id = nat

  datatype Option<+T> = None | Some(value: T)

  datatype LinkType =
    | EntityOverlap | TemporalAdjacent | SemanticSimilar | TopicRelated | SameGoal | SameEvent | Causal
    | EmotionalResonance | Contradiction | Correction | Elaboration | CoActivation | Supersedes | Deprecates

  datatype Observation = Confirmed | Observing(since: int)

  datatype Link = Link(
    target: Id, kind: LinkType, strength: real, confidence: real, note: Option<string>,
    formedAt: int, lastActivatedAt: Option<int>, activationCount: nat, observation: Observation)

  datatype Lifecycle =
    | Active | Compressed(into: Id) | Archived | Superseded(successor: Id) | Deprecated | Negated(negator: Id)

  /** A key of one of the six inverted indexes; the constructor names the index. */
  datatype Key =
    | Entity(hash: nat) | Topic(hash: nat) | Goal(hash: nat) | Event(hash: nat) | Cause(hash: nat)
    | Temporal(bucket: nat)

  /**
   `keys` are the association keys fixed when the unit is staged, `enrichedKeys` the goal, event and cause
   keys hashed from the understanding that enrichment completes. `tokens` is the token set of the raw text.
   `byConsolidation` says that the unit is a summary; a summary covers `preceding`.
   */
  datatype MemoryUnit = MemoryUnit(
    id: Id, tokens: set<string>, importance: real, usage: real, preceding: seq<Id>, byConsolidation: bool,
    lifecycle: Lifecycle, links: seq<Link>, keys: seq<Key>, enrichedKeys: seq<Key>)

  function Min(a: real, b: real): real { if a <= b then a else b }

  function Max(a: real, b: real): real { if a >= b then a else b }

  function Scale(x: real, factor: real): real { x * factor }

  /** `UnitScore::new`: clamps to [0, 1]. */
  function UnitScore(x: real): real { Min(Max(x, 0.0), 1.0) }

  /** `min_retained_strength`: the floor of decay and rejection, and the threshold of compaction. */
  const MIN_RETAINED := 0.12

  predicate SameEdge(a: Link, b: Link) {
    a.target == b.target && a.kind == b.kind
  }

  /** Links are deduplicated by (target, type). */
  predicate UniqueLinks(links: seq<Link>) {
    forall i, j :: 0 <= i < j < |links| ==> !SameEdge(links[i], links[j])
  }

  predicate NoSelfLoop(id: Id, links: seq<Link>) {
    forall l :: l in links ==> l.target != id
  }

  predicate StrengthsInRange(links: seq<Link>) {
    forall l :: l in links ==> 0.0 <= l.strength <= 1.0
  }

  /** What `unit.rs` states of a unit's out-edges, with strengths being unit scores. */
  predicate ValidLinks(id: Id, links: seq<Link>) {
    UniqueLinks(links) && NoSelfLoop(id, links) && StrengthsInRange(links)
  }

  /** The link types that decay and compaction spare, unless the link is still under observation. */
  predicate Protected(l: Link) {
    !l.observation.Observing? &&
    (l.kind == Causal || l.kind == Correction || l.kind == Contradiction || l.kind == Supersedes)
  }

  predicate HasEdge(links: seq<Link>, target: Id, kind: LinkType) {
    exists l :: l in links && l.target == target && l.kind == kind
  }

  ghost predicate UniqueIds(units: seq<MemoryUnit>) {
    forall i, j :: 0 <= i < j < |units| ==> units[i].id != units[j].id
  }
}
