/** The transparency anchor (adl_lite/key_registry.py): a Merkle tree over chain summaries, inclusion proofs for
    chains, and batch verification. */
module TransparencyAnchors {
  import opened Basics
  import opened Events
  import opened EventChains
  import opened Merkle
  import opened HashedFields
  import opened TailHash

  /** `"".join(e.hash for e in chain.events)` */
  function JoinedHashes(rs: seq<Record>): string {
    if rs == [] then "" else JoinedHashes(rs[..|rs| - 1]) + rs[|rs| - 1].hash
  }

  /** `_chain_summary_hash`; `enc` is the text encoding. */
  function Summary(h: Sha, enc: string -> Bytes, rs: seq<Record>): Bytes { h(enc(JoinedHashes(rs))) }

  /** A chain as the anchor sees it: concept id and summary. */
  type Card = (string, Bytes)

  function CardOf(h: Sha, enc: string -> Bytes, chain: EventChain): Card
    reads chain, chain.events
  {
    (chain.conceptId, Summary(h, enc, chain.Records()))
  }

  /** The leaves of the anchor: summaries in concept order, or a placeholder for no chain at all. */
  function AnchorLeaves(h: Sha, enc: string -> Bytes, cards: seq<Card>): (leaves: seq<Bytes>)
    ensures leaves != []
  {
    var sorted := Seconds(SortBy(cards, OnFirst(StringLe)));
    if sorted == [] then [h(enc(""))] else sorted
  }

  /** `list.index`; the length when there is none. */
  function IndexOf(leaves: seq<Bytes>, s: Bytes): (i: nat)
    ensures i <= |leaves| && (i < |leaves| ==> leaves[i] == s) && (i < |leaves| <==> s in leaves)
    ensures forall k :: 0 <= k < i ==> leaves[k] != s
  {
    if leaves == [] then 0 else if leaves[0] == s then 0 else 1 + IndexOf(leaves[1..], s)
  }

  /** What `verify_batch` decides about one chain. */
  predicate Verdict(h: Sha, card: Card, root: Bytes, proofs: map<string, MerkleProof>) {
    card.0 in proofs && proofs[card.0].root == root && proofs[card.0].leafHash == card.1 && Accepts(h, proofs[card.0])
  }

  /** The result table; a later chain of the same concept overwrites an earlier one. */
  function BatchVerdicts(h: Sha, cards: seq<Card>, root: Bytes, proofs: map<string, MerkleProof>): map<string, bool> {
    if cards == [] then map[]
    else
      var last := cards[|cards| - 1];
      BatchVerdicts(h, cards[..|cards| - 1], root, proofs)[last.0 := Verdict(h, last, root, proofs)]
  }

  lemma {:induction false} JoinedOfConcat(rs: seq<Record>, ss: seq<Record>)
    ensures JoinedHashes(rs + ss) == JoinedHashes(rs) + JoinedHashes(ss)
  {
    if ss == [] {
      assert rs + ss == rs;
    } else {
      ConcatSnoc(rs, ss);
      JoinedOfConcat(rs, ss[..|ss| - 1]);
      JoinIsAssociative(JoinedHashes(rs), JoinedHashes(ss[..|ss| - 1]), ss[|ss| - 1].hash);
    }
  }

  lemma JoinedOfOne(r: Record)
    ensures JoinedHashes([r]) == r.hash
  {
    assert [r][..0] == [];
  }

  /** The leaves are the summaries of the cards in the order of their concepts, cards of one concept as they were given. */
  ghost predicate InConceptOrder(cards: seq<Card>, sorted: seq<Card>) {
    && multiset(sorted) == multiset(cards)
    && (forall i, j :: 0 <= i < j < |sorted| ==> StringLe(sorted[i].0, sorted[j].0))
  }

  lemma CardOrder()
    ensures TotalPreorder(OnFirst<string, Bytes>(StringLe))
  {
    var le := OnFirst<string, Bytes>(StringLe);
    forall x: Card, y: Card ensures le(x, y) || le(y, x) { StringLeTotal(x.0, y.0); }
    forall x: Card, y: Card, z: Card | le(x, y) && le(y, z) ensures le(x, z) { StringLeTransitive(x.0, y.0, z.0); }
  }

  lemma LeavesInOrder(h: Sha, enc: string -> Bytes, cards: seq<Card>) returns (sorted: seq<Card>)
    requires cards != []
    ensures InConceptOrder(cards, sorted) && |sorted| == |AnchorLeaves(h, enc, cards)|
    ensures forall i :: 0 <= i < |sorted| ==> AnchorLeaves(h, enc, cards)[i] == sorted[i].1
  {
    sorted := SortBy(cards, OnFirst(StringLe));
    CardOrder();
    SortSorts(cards, OnFirst(StringLe));
    SortKeepsElements(cards, OnFirst(StringLe));
  }

  lemma SameConceptSameCard(cards: seq<Card>, x: Card, y: Card)
    requires DistinctConcepts(cards) && x in cards && y in cards && x.0 == y.0
    ensures x == y
  {
    var i, j :| 0 <= i < |cards| && 0 <= j < |cards| && cards[i] == x && cards[j] == y;
    assert i == j;
  }

  lemma SortedCardsAre(cards: seq<Card>, u: seq<Card>)
    requires u == SortBy(cards, OnFirst(StringLe))
    ensures SortedBy(u, OnFirst(StringLe)) && multiset(u) == multiset(cards) && forall x :: x in u <==> x in cards
  {
    CardOrder();
    SortSorts(cards, OnFirst(StringLe));
    SortKeepsElements(cards, OnFirst(StringLe));
    SameElements(u, cards);
  }

  /** The anchor does not depend on the order in which the chains are given, when no two of them share a concept. */
  lemma LeavesIgnoreOrder(h: Sha, enc: string -> Bytes, cards: seq<Card>, others: seq<Card>)
    requires multiset(cards) == multiset(others) && DistinctConcepts(cards)
    ensures AnchorLeaves(h, enc, cards) == AnchorLeaves(h, enc, others)
  {
    var u, v := SortBy(cards, OnFirst(StringLe)), SortBy(others, OnFirst(StringLe));
    SortedCardsAre(cards, u);
    SortedCardsAre(others, v);
    SameElements(u, v);
    forall x, y | x in u && y in v && OnFirst<string, Bytes>(StringLe)(x, y) && OnFirst<string, Bytes>(StringLe)(y, x) ensures x == y {
      StringLeTotal(x.0, y.0);
      SameConceptSameCard(cards, x, y);
    }
    SortedArrangementIsUnique(u, v, OnFirst(StringLe));
  }

  /** Of several chains of one concept the last one's verdict stands. */
  lemma {:induction false} LastVerdictStands(h: Sha, cards: seq<Card>, root: Bytes, proofs: map<string, MerkleProof>, i: nat)
    requires i < |cards| && forall j :: i < j < |cards| ==> cards[j].0 != cards[i].0
    ensures var verdicts := BatchVerdicts(h, cards, root, proofs);
      cards[i].0 in verdicts && verdicts[cards[i].0] == Verdict(h, cards[i], root, proofs)
  {
    if i < |cards| - 1 { LastVerdictStands(h, cards[..|cards| - 1], root, proofs, i); }
  }

  // ----- theorems -----

  lemma LeavesHoldSummaries(h: Sha, enc: string -> Bytes, cards: seq<Card>)
    ensures forall c :: c in cards ==> c.1 in AnchorLeaves(h, enc, cards)
    ensures cards != [] ==> forall s :: s in AnchorLeaves(h, enc, cards) ==> exists c :: c in cards && c.1 == s
    ensures cards != [] ==> |AnchorLeaves(h, enc, cards)| == |cards|
  {
    var sorted := SortBy(cards, OnFirst(StringLe));
    SortKeepsElements(cards, OnFirst(StringLe));
    SameElements(cards, sorted);
    forall c | c in cards ensures c.1 in AnchorLeaves(h, enc, cards) {
      var i :| 0 <= i < |sorted| && sorted[i] == c;
      assert Seconds(sorted)[i] == c.1;
    }
    if cards != [] {
      forall s | s in AnchorLeaves(h, enc, cards) ensures exists c :: c in cards && c.1 == s {
        var i :| 0 <= i < |sorted| && Seconds(sorted)[i] == s;
        assert sorted[i] in sorted && sorted[i].1 == s;
      }
    }
  }

  /** The proof `prove_inclusion` hands out for a chain that was anchored. */
  function InclusionProof(h: Sha, leaves: seq<Bytes>, summary: Bytes): Option<MerkleProof> {
    var i := IndexOf(leaves, summary);
    if i < |leaves| then Some(ProofFor(h, leaves, i)) else None
  }

  /** Every chain that was just anchored has a proof, and the proof is accepted against the anchor's root. */
  lemma AnchoredIsProvable(h: Sha, enc: string -> Bytes, cards: seq<Card>, card: Card)
    requires card in cards
    ensures var leaves := AnchorLeaves(h, enc, cards);
      var p := InclusionProof(h, leaves, card.1);
      && p.Some? && p.value.leafHash == card.1 && p.value.root == Root(h, leaves) && Accepts(h, p.value)
      && MadeFor(h, leaves, card, p.value)
  {
    var leaves := AnchorLeaves(h, enc, cards);
    LeavesHoldSummaries(h, enc, cards);
    MerkleCompleteness(h, leaves, IndexOf(leaves, card.1));
  }

  ghost predicate DistinctConcepts(cards: seq<Card>) {
    forall i, j :: 0 <= i < j < |cards| ==> cards[i].0 != cards[j].0
  }

  /** A proof made from the tree for a leaf that is the chain's summary: what `prove_inclusion` hands out, and what
      `anchor` writes to its proofs directory. */
  ghost predicate MadeFor(h: Sha, leaves: seq<Bytes>, c: Card, p: MerkleProof) {
    exists i :: 0 <= i < |leaves| && leaves[i] == c.1 && p == ProofFor(h, leaves, i)
  }

  /** The proofs are the ones made for the anchored chains, filed by concept id. */
  ghost predicate ProofsFiled(h: Sha, leaves: seq<Bytes>, cards: seq<Card>, proofs: map<string, MerkleProof>) {
    forall c :: c in cards ==> c.0 in proofs && MadeFor(h, leaves, c, proofs[c.0])
  }

  lemma {:induction false} BatchIsPointwise(h: Sha, cards: seq<Card>, root: Bytes, proofs: map<string, MerkleProof>)
    requires DistinctConcepts(cards)
    ensures BatchVerdicts(h, cards, root, proofs).Keys == set c | c in cards :: c.0
    ensures forall c :: c in cards ==> BatchVerdicts(h, cards, root, proofs)[c.0] == Verdict(h, c, root, proofs)
  {
    if cards == [] {
    } else {
      var n := |cards| - 1;
      BatchIsPointwise(h, cards[..n], root, proofs);
      LastConceptIsNew(cards);
    }
  }

  lemma LastConceptIsNew(cards: seq<Card>)
    requires cards != [] && DistinctConcepts(cards)
    ensures var n := |cards| - 1;
      cards == cards[..n] + [cards[n]] && forall c :: c in cards[..n] ==> c.0 != cards[n].0
  {
    var n := |cards| - 1;
    forall c | c in cards[..n] ensures c.0 != cards[n].0 {
      var i :| 0 <= i < n && cards[i] == c;
    }
  }

  /** Batch verification of just-anchored chains with distinct concept ids answers True for each of them. */
  lemma BatchAcceptsAnchored(h: Sha, enc: string -> Bytes, cards: seq<Card>, proofs: map<string, MerkleProof>)
    requires DistinctConcepts(cards) && ProofsFiled(h, AnchorLeaves(h, enc, cards), cards, proofs)
    ensures var result := BatchVerdicts(h, cards, Root(h, AnchorLeaves(h, enc, cards)), proofs);
      && result.Keys == (set c | c in cards :: c.0)
      && forall id :: id in result ==> result[id]
  {
    var root := Root(h, AnchorLeaves(h, enc, cards));
    BatchIsPointwise(h, cards, root, proofs);
    forall c | c in cards ensures Verdict(h, c, root, proofs) {
      var leaves := AnchorLeaves(h, enc, cards);
      var i :| 0 <= i < |leaves| && leaves[i] == c.1 && proofs[c.0] == ProofFor(h, leaves, i);
      MerkleCompleteness(h, leaves, i);
    }
  }

  lemma SummariesAreDigests(h: Sha, enc: string -> Bytes, cards: seq<Card>)
    requires forall c :: c in cards ==> |c.1| == 32
    ensures AllDigests(AnchorLeaves(h, enc, cards))
  {
    LeavesHoldSummaries(h, enc, cards);
    var leaves := AnchorLeaves(h, enc, cards);
    forall i | 0 <= i < |leaves| ensures |leaves[i]| == 32 {
      if cards != [] {
        assert leaves[i] in leaves;
        var c :| c in cards && c.1 == leaves[i];
      } else {
        assert SortBy(cards, OnFirst(StringLe)) == [];
      }
    }
  }

  /** A True verdict against the root of an anchor, with a proof of the tree's height, means that the chain's
      present summary is the anchored leaf its proof points at -- or the proof exhibits a collision. */
  lemma VerdictLocatesLeaf(h: Sha, enc: string -> Bytes, anchored: seq<Card>, card: Card, proofs: map<string, MerkleProof>)
    requires |card.1| == 32 && forall c :: c in anchored ==> |c.1| == 32
    requires var leaves := AnchorLeaves(h, enc, anchored);
      Verdict(h, card, Root(h, leaves), proofs) && |proofs[card.0].siblings| == Height(|leaves|)
    ensures var leaves := AnchorLeaves(h, enc, anchored);
      var p := proofs[card.0];
      card.1 == leaves[Locate(|leaves|, p.siblings)] || CollisionIn(h, TreeInputs(h, leaves), ProofInputs(h, p.leafHash, p.siblings))
  {
    SummariesAreDigests(h, enc, anchored);
    MerkleSoundness(h, AnchorLeaves(h, enc, anchored), proofs[card.0]);
  }

  // ----- from summaries to histories -----

  function Hashes(rs: seq<Record>): seq<string> { seq(|rs|, i requires 0 <= i < |rs| => rs[i].hash) }

  /** Every hash has the 64 characters of a SHA-256 in hexadecimal. */
  ghost predicate FullHashes(rs: seq<Record>) { forall i :: 0 <= i < |rs| ==> |rs[i].hash| == 64 }

  ghost predicate OneToOne(enc: string -> Bytes) { forall x, y :: enc(x) == enc(y) ==> x == y }

  lemma {:induction false} JoinedLength(rs: seq<Record>)
    requires FullHashes(rs)
    ensures |JoinedHashes(rs)| == 64 * |rs|
  {
    if rs != [] { JoinedLength(rs[..|rs| - 1]); }
  }

  /** The joined text can be cut into the hashes again. */
  lemma {:induction false} JoinedFixesHashes(rs: seq<Record>, ss: seq<Record>)
    requires FullHashes(rs) && FullHashes(ss) && JoinedHashes(rs) == JoinedHashes(ss)
    ensures Hashes(rs) == Hashes(ss)
  {
    JoinedLength(rs);
    JoinedLength(ss);
    if rs != [] {
      var n := |rs| - 1;
      CutLast(JoinedHashes(rs[..n]), rs[n].hash, JoinedHashes(ss[..n]), ss[n].hash);
      JoinedFixesHashes(rs[..n], ss[..n]);
      assert Hashes(rs) == Hashes(rs[..n]) + [rs[n].hash] && Hashes(ss) == Hashes(ss[..n]) + [ss[n].hash];
    }
  }

  lemma CutLast(a: string, x: string, b: string, y: string)
    requires a + x == b + y && |x| == |y|
    ensures a == b && x == y
  {
    assert |a| + |x| == |a + x| == |b + y| == |b| + |y|;
    assert a == (a + x)[..|a|] == (b + y)[..|b|] == b;
    assert x == (a + x)[|a|..] == (b + y)[|b|..] == y;
  }

  /** Two different joined texts with one digest. */
  ghost predicate SummaryCollision(h: Sha, enc: string -> Bytes, rs: seq<Record>, ss: seq<Record>) {
    enc(JoinedHashes(rs)) != enc(JoinedHashes(ss)) && Summary(h, enc, rs) == Summary(h, enc, ss)
  }

  lemma SummaryFixesHashes(h: Sha, enc: string -> Bytes, rs: seq<Record>, ss: seq<Record>)
    requires OneToOne(enc) && FullHashes(rs) && FullHashes(ss) && Summary(h, enc, rs) == Summary(h, enc, ss)
    ensures Hashes(rs) == Hashes(ss) || SummaryCollision(h, enc, rs, ss)
  {
    if enc(JoinedHashes(rs)) == enc(JoinedHashes(ss)) { JoinedFixesHashes(rs, ss); }
  }

  /** The cards of chains given as concept id and records. */
  function CardsOf(h: Sha, enc: string -> Bytes, chains: seq<(string, seq<Record>)>): (cards: seq<Card>)
    ensures |cards| == |chains| && forall i :: 0 <= i < |chains| ==> cards[i] == (chains[i].0, Summary(h, enc, chains[i].1))
  {
    seq(|chains|, i requires 0 <= i < |chains| => (chains[i].0, Summary(h, enc, chains[i].1)))
  }

  /** The hashes of the chain are those of an anchored one; an anchor over no chain at all stands for an empty chain. */
  ghost predicate HashesAnchored(chains: seq<(string, seq<Record>)>, rs: seq<Record>) {
    if chains == [] then rs == [] else exists c :: c in chains && Hashes(c.1) == Hashes(rs)
  }

  /** The tree and the proof, or two summaries, hash two different byte strings to one digest. */
  ghost predicate CollisionShown(h: Sha, enc: string -> Bytes, chains: seq<(string, seq<Record>)>, rs: seq<Record>, p: MerkleProof) {
    || CollisionIn(h, TreeInputs(h, AnchorLeaves(h, enc, CardsOf(h, enc, chains))), ProofInputs(h, p.leafHash, p.siblings))
    || (exists c :: c in chains && SummaryCollision(h, enc, c.1, rs))
    || (chains == [] && SummaryCollision(h, enc, [], rs))
  }

  ghost predicate AllFullHashes(chains: seq<(string, seq<Record>)>) { forall c :: c in chains ==> FullHashes(c.1) }

  lemma SummaryOfAnchored(h: Sha, enc: string -> Bytes, chains: seq<(string, seq<Record>)>, rs: seq<Record>)
    requires OneToOne(enc) && FullHashes(rs) && AllFullHashes(chains)
    requires Summary(h, enc, rs) in AnchorLeaves(h, enc, CardsOf(h, enc, chains))
    ensures HashesAnchored(chains, rs) || (exists c :: c in chains && SummaryCollision(h, enc, c.1, rs))
            || (chains == [] && SummaryCollision(h, enc, [], rs))
  {
    var cards := CardsOf(h, enc, chains);
    if chains == [] {
      assert SortBy(cards, OnFirst(StringLe)) == [];
      assert AnchorLeaves(h, enc, cards) == [h(enc(""))];
      SummaryFixesHashes(h, enc, [], rs);
      assert |Hashes(rs)| == |rs| && Hashes([]) == [];
    } else {
      LeavesHoldSummaries(h, enc, cards);
      var card :| card in cards && card.1 == Summary(h, enc, rs);
      var i :| 0 <= i < |cards| && cards[i] == card;
      assert chains[i] in chains;
      SummaryFixesHashes(h, enc, chains[i].1, rs);
    }
  }

  /** A True verdict against the root of an anchor, with a proof of the tree's height, means that the chain has, event by event,
      the hashes of an anchored chain -- or a collision of SHA-256 shows. */
  lemma BatchVerdictIsSound(h: Sha, enc: string -> Bytes, chains: seq<(string, seq<Record>)>, concept: string, rs: seq<Record>,
                            proofs: map<string, MerkleProof>)
    requires OneToOne(enc) && FullHashes(rs) && AllFullHashes(chains)
    requires var leaves := AnchorLeaves(h, enc, CardsOf(h, enc, chains));
      && Verdict(h, (concept, Summary(h, enc, rs)), Root(h, leaves), proofs)
      && |proofs[concept].siblings| == Height(|leaves|)
    ensures HashesAnchored(chains, rs) || CollisionShown(h, enc, chains, rs, proofs[concept])
  {
    var cards := CardsOf(h, enc, chains);
    forall c | c in cards ensures |c.1| == 32 { var i :| 0 <= i < |cards| && cards[i] == c; }
    VerdictLocatesLeaf(h, enc, cards, (concept, Summary(h, enc, rs)), proofs);
    if !CollisionShown(h, enc, chains, rs, proofs[concept]) {
      SummaryOfAnchored(h, enc, chains, rs);
    }
  }

  /** Chains whose recorded hashes fit their contents and are equal have equal histories, archived ones included -- or two
      contents have one hash. */
  lemma EqualHashesFixHistory(H: Hasher, a: seq<Record>, b: seq<Record>)
    requires Axiom4(H, a) && Axiom4(H, b) && Hashes(a) == Hashes(b)
    ensures Contents(a) == Contents(b) || CollisionBetween(H, a, b)
  {
    assert |Hashes(a)| == |a| && |Hashes(b)| == |b|;
    if !CollisionBetween(H, a, b) {
      forall i | 0 <= i < |a| ensures Contents(a)[i] == Contents(b)[i] {
        assert Hashes(a)[i] == Hashes(b)[i];
        assert Contents(a)[i] in Contents(a) && Contents(b)[i] in Contents(b);
        assert !Collision(H, Contents(a)[i], Contents(b)[i]);
      }
    }
  }

  /** For chains that verify, a True verdict means that an anchored chain has the same history, event by event in every hashed
      field -- or a collision shows, in the tree, in a summary or among the events. */
  lemma VerdictFixesHistory(H: Hasher, h: Sha, enc: string -> Bytes, chains: seq<(string, seq<Record>)>, concept: string, rs: seq<Record>,
                            proofs: map<string, MerkleProof>)
    requires OneToOne(enc) && Axiom4(H, rs) && forall c :: c in chains ==> Axiom4(H, c.1)
    requires var leaves := AnchorLeaves(h, enc, CardsOf(h, enc, chains));
      && Verdict(h, (concept, Summary(h, enc, rs)), Root(h, leaves), proofs)
      && |proofs[concept].siblings| == Height(|leaves|)
    ensures (if chains == [] then rs == [] else exists c :: c in chains && SameHistory(c.1, rs))
            || CollisionShown(h, enc, chains, rs, proofs[concept])
            || (exists c :: c in chains && CollisionBetween(H, c.1, rs))
  {
    forall c | c in chains ensures FullHashes(c.1) { HashesAreFull(H, c.1); }
    HashesAreFull(H, rs);
    BatchVerdictIsSound(h, enc, chains, concept, rs, proofs);
    if HashesAnchored(chains, rs) && chains != [] {
      var c :| c in chains && Hashes(c.1) == Hashes(rs);
      EqualHashesFixHistory(H, c.1, rs);
      SameContentsSameHistory(c.1, rs);
    }
  }

  lemma HashesAreFull(H: Hasher, rs: seq<Record>)
    requires Axiom4(H, rs)
    ensures FullHashes(rs)
  {
  }

  // ----- the anchor object -----

  method CollectCards(h: Sha, enc: string -> Bytes, chains: seq<EventChain>) returns (cards: seq<Card>)
    ensures |cards| == |chains| && forall i :: 0 <= i < |chains| ==> cards[i] == CardOf(h, enc, chains[i])
  {
    cards := [];
    for i := 0 to |chains|
      invariant |cards| == i && forall k :: 0 <= k < i ==> cards[k] == CardOf(h, enc, chains[k])
    {
      cards := cards + [CardOf(h, enc, chains[i])];
    }
  }

  /** The first `n` cards have their proofs, and no two of the cards share a concept. */
  ghost predicate FiledUpTo(h: Sha, leaves: seq<Bytes>, cards: seq<Card>, n: nat, proofs: map<string, MerkleProof>) {
    && n <= |cards| && DistinctConcepts(cards)
    && forall i :: 0 <= i < n ==> cards[i].0 in proofs && MadeFor(h, leaves, cards[i], proofs[cards[i].0])
  }

  lemma SortedCards(cards: seq<Card>, sorted: seq<Card>)
    requires sorted == SortBy(cards, OnFirst(StringLe))
    ensures multiset(cards) == multiset(sorted) && |sorted| == |cards|
    ensures DistinctConcepts(cards) ==> DistinctConcepts(sorted)
  {
    SortKeepsElements(cards, OnFirst(StringLe));
    if DistinctConcepts(cards) { DistinctKeysRearranged(cards, sorted, (c: Card) => c.0); }
  }

  lemma FileNext(h: Sha, leaves: seq<Bytes>, cards: seq<Card>, i: nat, proofs: map<string, MerkleProof>, p: MerkleProof)
    requires i < |cards| && FiledUpTo(h, leaves, cards, i, proofs)
    requires i < |leaves| && leaves[i] == cards[i].1 && p == ProofFor(h, leaves, i)
    ensures FiledUpTo(h, leaves, cards, i + 1, proofs[cards[i].0 := p])
  {
    assert MadeFor(h, leaves, cards[i], p);
  }

  lemma AllFiled(h: Sha, leaves: seq<Bytes>, cards: seq<Card>, sorted: seq<Card>, proofs: map<string, MerkleProof>)
    requires multiset(cards) == multiset(sorted) && FiledUpTo(h, leaves, sorted, |sorted|, proofs)
    ensures ProofsFiled(h, leaves, cards, proofs)
  {
    SameElements(cards, sorted);
    forall c | c in cards ensures c.0 in proofs && MadeFor(h, leaves, c, proofs[c.0]) {
      var i :| 0 <= i < |sorted| && sorted[i] == c;
    }
  }

  class TransparencyAnchor {
    const h: Sha
    const enc: string -> Bytes
    var lastChains: seq<EventChain>
    var lastTree: MerkleTree?

    ghost predicate Valid()
      reads this
    {
      lastTree != null ==> lastTree.Valid() && lastTree.h == h
    }

    constructor (h: Sha, enc: string -> Bytes)
      ensures Valid() && this.h == h && this.enc == enc && lastChains == [] && lastTree == null
    {
      this.h := h;
      this.enc := enc;
      lastChains := [];
      lastTree := null;
    }

    /** `_compute_merkle_anchor` */
    method ComputeMerkleAnchor(chains: seq<EventChain>) returns (tree: MerkleTree, cards: seq<Card>)
      ensures |cards| == |chains| && forall i :: 0 <= i < |chains| ==> cards[i] == CardOf(h, enc, chains[i])
      ensures fresh(tree) && tree.Valid() && tree.h == h && tree.leaves == AnchorLeaves(h, enc, cards)
    {
      cards := CollectCards(h, enc, chains);
      var hashes := Seconds(SortBy(cards, OnFirst(StringLe)));
      if hashes == [] {
        hashes := [h(enc(""))];
      }
      var levels := Build(h, hashes);
      tree := new MerkleTree(h, hashes, levels);
    }

    /** `anchor(chains, use_merkle=True)`: remembers chains and tree, returns the root. */
    method Anchor(chains: seq<EventChain>) returns (root: Bytes, ghost cards: seq<Card>)
      modifies this
      ensures |cards| == |chains| && forall i :: 0 <= i < |chains| ==> cards[i] == CardOf(h, enc, chains[i])
      ensures Valid() && lastChains == chains && lastTree != null && lastTree.leaves == AnchorLeaves(h, enc, cards)
      ensures root == Root(h, lastTree.leaves)
    {
      lastChains := chains;
      var tree;
      tree, cards := ComputeMerkleAnchor(chains);
      lastTree := tree;
      root := tree.RootOf();
    }

    /** The proofs `anchor` writes for its chains: one for each position of the sorted chains, under the concept id. A later
        chain of the same concept overwrites an earlier one. */
    method ExportProofs(ghost cards: seq<Card>, sorted: seq<Card>) returns (proofs: map<string, MerkleProof>)
      requires Valid() && lastTree != null && cards != []
      requires sorted == SortBy(cards, OnFirst(StringLe)) && lastTree.leaves == AnchorLeaves(h, enc, cards)
      ensures DistinctConcepts(cards) ==> ProofsFiled(h, lastTree.leaves, cards, proofs)
    {
      proofs := map[];
      SortedCards(cards, sorted);
      for i := 0 to |sorted|
        invariant DistinctConcepts(cards) ==> FiledUpTo(h, lastTree.leaves, sorted, i, proofs)
      {
        var made := lastTree.Proof(i);
        if DistinctConcepts(cards) { FileNext(h, lastTree.leaves, sorted, i, proofs, made.value); }
        proofs := proofs[sorted[i].0 := made.value];
      }
      if DistinctConcepts(cards) { AllFiled(h, lastTree.leaves, cards, sorted, proofs); }
    }

    method ProveInclusion(chain: EventChain) returns (p: Option<MerkleProof>)
      requires Valid()
      ensures p == if lastTree == null || lastChains == [] then None
                   else InclusionProof(h, lastTree.leaves, Summary(h, enc, chain.Records()))
    {
      if lastTree == null || lastChains == [] {
        return None;
      }
      var index := IndexOf(lastTree.leaves, Summary(h, enc, chain.Records()));
      if index == |lastTree.leaves| {
        return None;
      }
      var made := lastTree.Proof(index);
      p := Some(made.value);
    }

    method VerifyInclusion(chain: EventChain, p: MerkleProof) returns (ok: bool)
      ensures ok == (p.leafHash == Summary(h, enc, chain.Records()) && Accepts(h, p))
    {
      if p.leafHash != Summary(h, enc, chain.Records()) {
        return false;
      }
      ok := VerifyProof(h, p);
    }
  }

  lemma VerdictsSnoc(h: Sha, cards: seq<Card>, card: Card, root: Bytes, proofs: map<string, MerkleProof>)
    ensures BatchVerdicts(h, cards + [card], root, proofs) ==
            BatchVerdicts(h, cards, root, proofs)[card.0 := Verdict(h, card, root, proofs)]
  {
    assert (cards + [card])[..|cards + [card]| - 1] == cards;
  }

  /** `cards` names what the chains hold; the answer depends on nothing else. */
  method VerifyBatch(h: Sha, enc: string -> Bytes, chains: seq<EventChain>, root: Bytes, proofs: map<string, MerkleProof>, ghost cards: seq<Card>)
    returns (result: map<string, bool>)
    requires |cards| == |chains| && forall i :: 0 <= i < |chains| ==> cards[i] == CardOf(h, enc, chains[i])
    ensures result == BatchVerdicts(h, cards, root, proofs)
  {
    result := map[];
    for i := 0 to |chains|
      invariant forall k :: i <= k < |chains| ==> cards[k] == CardOf(h, enc, chains[k])
      invariant result == BatchVerdicts(h, cards[..i], root, proofs)
    {
      TakeSnoc(cards, i);
      VerdictsSnoc(h, cards[..i], cards[i], root, proofs);
      var ok := VerifyOne(h, enc, chains[i], root, proofs);
      result := result[chains[i].conceptId := ok];
    }
    assert cards[..|chains|] == cards;
  }

  method VerifyOne(h: Sha, enc: string -> Bytes, chain: EventChain, root: Bytes, proofs: map<string, MerkleProof>) returns (ok: bool)
    ensures ok == Verdict(h, CardOf(h, enc, chain), root, proofs)
  {
    if chain.conceptId !in proofs {
      return false;
    }
    var p := proofs[chain.conceptId];
    if p.root != root {
      return false;
    }
    if p.leafHash != Summary(h, enc, chain.Records()) {
      return false;
    }
    ok := VerifyProof(h, p);
  }
}
