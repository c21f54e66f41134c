/**
  How the platform drives the engine: it starts it, takes in blocks from the network and mines its
  own. In each flow the block's state is always there when the engine needs it.
*/
module Platform {
  import opened Hashing
  import opened Ancestry
  import opened ForkChoice
  import opened Runs
  import opened Uncles
  import opened Trie
  import opened NodeStore
  import opened Persistence
  import opened WorldState
  import opened Flush
  import opened Overlay
  import opened FixedBytes
  import opened Mining
  import opened Commitments
  import opened Consensus

  /** A new engine on a new database: it is the one every run starts from, and its only state can be rebased to. */
  method Start(genesis: Block) returns (engine: BlockChainConsensus)
    requires genesis.depth == 0 && genesis.uncles == [] && genesis.parent == Null && genesis.state == HashOf(EMPTY)
    ensures fresh(engine) && engine.Valid() && engine.View() == Initial(genesis)
    ensures Intact(engine.View(), engine.state.db.View())
  {
    var db := new Database();
    var created := BlockChainConsensus.Open(genesis, Tables(map[], map[], map[], None), db);
    OpenedEmpty(genesis, Roots(db.View()));
    InitialIntact(genesis, db.View());
    engine := created;
  }

  /**
    Opening a saved database all of whose blocks have rebasable states gives an intact engine, if the
    saved engine was consistent.
  */
  method Reopen(genesis: Block, ghost saved: Dag, stored: Tables, db: Database) returns (engine: BlockChainConsensus)
    requires db.Ok() && genesis.state == HashOf(EMPTY) && genesis.hash == saved.genesis
    requires stored == Saved(saved) && Intact(saved, db.View())
    modifies db
    ensures fresh(engine) && engine.Valid() && engine.View() == saved
    ensures engine.state.db == db && Intact(engine.View(), db.View())
  {
    ghost var before := db.View();
    var created := BlockChainConsensus.Open(genesis, stored, db);
    assert saved.blocks[saved.tip.hash].state in Roots(before);
    engine := created;
  }

  /** The submission of a block whose replay reached the root, which can be rebased to. */
  ghost function Replayed(child: MinableBlock, root: Hash): Submission
    reads child
  {
    Submission(Sealed(child.spec, child.hash), root, {root})
  }

  /** A block whose world state stands at a root that can be rebased to is ready, whatever its writes. */
  lemma RootedIsReady(s: Snapshot, ws: Writes, w: World, nodes: map<Hash, Rec>)
    requires ContentAddressed(nodes, w.trees) && s.world.trees == w.trees && s.world.roots == w.roots
    requires WF(s.tree) && HashOf(s.tree) in Roots(w)
    ensures Overlay.Ready(s, ws)
  {
    StoreAddressed(nodes, s.world.trees, s.world);
    RootsOfTree(s.world, s.tree);
  }

  /** An accepted block is stored under its hash with the fields it was sent with. */
  lemma AcceptedIsStored(d: Dag, spec: BlockSpec, hash: Option<Digest64>, root: Hash, d': Dag)
    requires d.nodes.Keys == d.blocks.Keys && hash.Some?
    requires (d', Checked(Accepted)) == Submit(d, Submission(Sealed(spec, hash), root, {root}))
    ensures hash.value in d'.blocks && Records(d'.blocks[hash.value], spec) && spec.state == root
  {
    SubmitCases(d, Submission(Sealed(spec, hash), root, {root}));
    SealedRecords(spec, hash);
  }

  /** The block can be handed to the engine, and stands at a root that can be rebased to. */
  ghost predicate Standing(engine: BlockChainConsensus, child: MinableBlock, isNetworkBlock: bool)
    reads child, child.body, child.body.worldState, child.body.worldState.db, engine.state, engine.state.db
  {
    && child.Valid() && engine.Shares(child) && child.isNetworkBlock == isNetworkBlock
    && child.body.worldState.rootHash in Roots(engine.state.db.View())
  }

  /** Checks a received block's proof of work. Its flushed root can be rebased to afterwards. */
  method Check(engine: BlockChainConsensus, child: MinableBlock, approver: Approver, budget: nat) returns (ok: bool)
    requires engine.Valid() && Standing(engine, child, true)
    modifies child, child.body.worldState, engine.state.db
    ensures engine.Valid() && Standing(engine, child, true) && engine.View() == old(engine.View())
    ensures IsFlush(old(child.body.worldState.tree), child.body.variables, child.body.worldState.tree)
    ensures child.spec == old(child.spec)
    ensures budget > 0 ==>
      (ok <==> approver(BlockHash(child.spec, child.body.worldState.rootHash), child.spec.ts, child.spec.delta))
    ensures ok ==> budget > 0 && HashAccepted(child.spec, child.body.worldState.rootHash, child.hash, Some(approver))
  {
    RootedIsReady(child.body.worldState.Now(), child.body.variables, engine.state.db.View(), engine.state.db.nodes);
    ghost var e;
    ok, e := engine.CheckNetworkBlockPoW(child, approver, budget);
  }

  /** Submits a hashed network block: whatever its writes, its state is there. */
  method Accept(engine: BlockChainConsensus, child: MinableBlock, budget: nat, ghost start: Tree)
    returns (verdict: Verdict)
    requires engine.Valid() && Standing(engine, child, true) && child.hash.Some?
    requires IsFlush(start, child.body.variables, child.body.worldState.tree)
    modifies engine, engine.state, engine.state.db, child, child.body.worldState
    ensures engine.Valid() && verdict != Checked(StateMissing)
    ensures child.body.worldState.tree == old(child.body.worldState.tree) && child.spec == old(child.spec)
    ensures HashKept(child.spec, HashOf(child.body.worldState.tree), true, child.spec, child.hash, old(child.hash))
    ensures (engine.View(), verdict) == Submit(old(engine.View()), Replayed(child, HashOf(child.body.worldState.tree)))
  {
    ghost var ws, flushed := child.body.variables, child.body.worldState.tree;
    RootedIsReady(child.body.worldState.Now(), ws, engine.state.db.View(), engine.state.db.nodes);
    ghost var e;
    verdict, e := engine.AcceptNetworkBlock(child, budget);
    if Validate(old(engine.blocks), e.block) == None {
      FlushAgain(start, ws, flushed, child.body.worldState.tree);
    }
  }

  /** Decodes a received block and replays its transactions, which leaves these writes pending. */
  method Replay(engine: BlockChainConsensus, spec: BlockSpec, writes: Writes) returns (child: MinableBlock?)
    requires engine.Valid()
    modifies engine.state.db
    ensures engine.Valid() && engine.View() == old(engine.View())
    ensures child != null ==> fresh(child) && fresh(child.body) && fresh(child.body.worldState)
    ensures child != null ==> Standing(engine, child, true) && child.body.variables == writes
    ensures child != null ==>
      spec.phash in engine.blocks && child.body.worldState.rootHash == engine.blocks[spec.phash].state
    ensures child != null ==> child.spec == spec
  {
    child := engine.DecodeNetworkBlockSpec(spec);
    if child != null {
      child.body.variables := writes;
    }
  }

  /**
    A block from the network: it is decoded, the application replays its transactions into `writes`,
    its proof of work is checked and it is submitted. Only a block whose hash the approver accepts gets a
    verdict, and if it is accepted it is stored as it was sent. Whatever the writes, the engine keeps its
    invariant and never finds the block's state missing.
  */
  method ReceiveBlock(engine: BlockChainConsensus, spec: BlockSpec, writes: Writes, approver: Approver, budget: nat)
    returns (child: MinableBlock?, verdict: Option<Verdict>, ghost start: Tree)
    requires engine.Valid()
    modifies engine, engine.state, engine.state.db
    ensures engine.Valid() && verdict != Some(Checked(StateMissing))
    ensures verdict.None? ==> engine.View() == old(engine.View())
    ensures verdict.Some? ==> child != null && spec.phash in old(engine.blocks)
    ensures verdict.Some? ==> HashOf(start) == old(engine.blocks)[spec.phash].state
    ensures verdict.Some? ==> IsFlush(start, writes, child.body.worldState.tree) && child.spec == spec
    ensures verdict.Some? ==> HashAccepted(spec, HashOf(child.body.worldState.tree), child.hash, Some(approver))
    ensures verdict == Some(Checked(Accepted)) ==>
      child.hash.value in engine.blocks && Records(engine.blocks[child.hash.value], spec)
    ensures verdict.Some? ==>
      (engine.View(), verdict.value) == Submit(old(engine.View()), Replayed(child, HashOf(child.body.worldState.tree)))
  {
    verdict, start := None, EMPTY;
    child := Replay(engine, spec, writes);
    if child == null {
      return;
    }
    start := child.body.worldState.tree;
    var ok := Check(engine, child, approver, budget);
    if !ok {
      return;
    }
    var v := Accept(engine, child, budget, start);
    verdict := Some(v);
    if v == Checked(Accepted) {
      AcceptedIsStored(old(engine.View()), spec, child.hash, HashOf(child.body.worldState.tree), engine.View());
    }
  }

  /** Mines a local block: whatever its writes, its state is there. */
  method Mine(engine: BlockChainConsensus, child: MinableBlock, pow: Option<Approver>, budget: nat)
    returns (verdict: Verdict)
    requires engine.Valid() && Standing(engine, child, false)
    modifies engine, engine.state, engine.state.db, child, child.body.worldState
    ensures engine.Valid() && verdict != Checked(StateMissing)
    ensures verdict.Checked? ==>
      IsFlush(old(child.body.worldState.tree), child.body.variables, child.body.worldState.tree)
    ensures verdict.Checked? ==>
      (engine.View(), verdict) == Submit(old(engine.View()), Replayed(child, HashOf(child.body.worldState.tree)))
    ensures !verdict.Checked? ==> engine.View() == old(engine.View())
    ensures verdict.Checked? ==> HashAccepted(child.spec, HashOf(child.body.worldState.tree), child.hash, pow)
    ensures child.spec == old(child.spec).(nonce := child.spec.nonce, state := child.spec.state)
  {
    RootedIsReady(child.body.worldState.Now(), child.body.variables, engine.state.db.View(), engine.state.db.nodes);
    ghost var e;
    verdict, e := engine.MineCandidateBlock(child, pow, budget);
  }

  /** The spec is a candidate's on this tip, with these transactions. */
  ghost predicate BuiltOn(d: Dag, spec: BlockSpec, minerId: Bytes, ts: U64, tipTime: U64, txs: seq<Bytes>)
    requires d.tip.hash in d.blocks
  {
    && spec.phash == d.tip.hash && spec.miner == minerId && spec.ts == ts && spec.delta == tipTime && spec.txs == txs
    && spec.depth == (d.tip.depth + 1) % TWO64 && spec.weight == (d.tip.weight + 1 + |spec.uncles|) % TWO64
    && NoDuplicates(spec.uncles)
    && forall u :: u in spec.uncles <==> Nearby(d.blocks, d.tip.hash, u, MAX_UNCLE_DISTANCE, d.tip.depth)
  }

  lemma CandidateIsBuiltOn(d: Dag, minerId: Bytes, c: Candidate, root: Hash, ts: U64, tipTime: U64, txs: seq<Bytes>)
    requires d.tip.hash in d.blocks && IsCandidate(d, minerId, c)
    ensures BuiltOn(d, CandidateSpec(c, root, ts, tipTime).(txs := txs), minerId, ts, tipTime, txs)
  {
    DeltaIsTipTime(c, root, ts, tipTime);
  }

  /** Neither the nonce nor the state matters to where a block sits. */
  lemma StaysBuiltOn(d: Dag, spec: BlockSpec, spec': BlockSpec, minerId: Bytes, ts: U64, tipTime: U64, txs: seq<Bytes>)
    requires d.tip.hash in d.blocks && BuiltOn(d, spec, minerId, ts, tipTime, txs)
    requires spec' == spec.(nonce := spec'.nonce, state := spec'.state)
    ensures BuiltOn(d, spec', minerId, ts, tipTime, txs)
  {
  }

  /** A candidate on the tip, filled with transactions and their writes. */
  method Fill(engine: BlockChainConsensus, minerId: Bytes, ts: U64, tipTime: U64, txs: seq<Bytes>, writes: Writes)
    returns (child: MinableBlock?)
    requires engine.Valid()
    modifies engine.state.db
    ensures engine.Valid() && engine.View() == old(engine.View())
    ensures child != null ==> fresh(child) && fresh(child.body) && fresh(child.body.worldState)
    ensures child != null ==> Standing(engine, child, false) && child.body.variables == writes
    ensures child != null ==> child.body.worldState.rootHash == engine.state.rootHash
    ensures child != null ==> BuiltOn(engine.View(), child.spec, minerId, ts, tipTime, txs)
  {
    ghost var c;
    child, c := engine.NewCandidateBlock(minerId, ts, tipTime);
    if child != null {
      child.spec := child.spec.(txs := txs);
      child.body.variables := writes;
      CandidateIsBuiltOn(engine.View(), minerId, c, engine.state.rootHash, ts, tipTime, txs);
    }
  }

  /**
    A block of the node's own: a candidate is set up on the tip, filled with transactions and their
    writes, and mined. It is submitted only with a hash the proof-of-work rule accepts, and if it is
    accepted it is stored as it was built. The engine keeps its invariant and never finds the block's
    state missing. No verdict if no candidate could be set up.
  */
  method ProduceBlock(engine: BlockChainConsensus, minerId: Bytes, ts: U64, tipTime: U64, txs: seq<Bytes>,
                      writes: Writes,
                      pow: Option<Approver>, budget: nat)
    returns (child: MinableBlock?, verdict: Option<Verdict>, ghost start: Tree)
    requires engine.Valid()
    modifies engine, engine.state, engine.state.db
    ensures engine.Valid() && verdict != Some(Checked(StateMissing))
    ensures verdict.Some? ==> child != null && HashOf(start) == old(engine.state.rootHash)
    ensures verdict.Some? ==> BuiltOn(old(engine.View()), child.spec, minerId, ts, tipTime, txs)
    ensures verdict.Some? && verdict.value.Checked? ==> IsFlush(start, writes, child.body.worldState.tree)
    ensures verdict.Some? && verdict.value.Checked? ==>
      HashAccepted(child.spec, HashOf(child.body.worldState.tree), child.hash, pow)
    ensures verdict == Some(Checked(Accepted)) ==>
      child.hash.value in engine.blocks && Records(engine.blocks[child.hash.value], child.spec)
    ensures if verdict.Some? && verdict.value.Checked?
            then (engine.View(), verdict.value) ==
              Submit(old(engine.View()), Replayed(child, HashOf(child.body.worldState.tree)))
            else engine.View() == old(engine.View())
  {
    verdict, start := None, EMPTY;
    child := Fill(engine, minerId, ts, tipTime, txs, writes);
    if child == null {
      return;
    }
    start := child.body.worldState.tree;
    ghost var spec := child.spec;
    var v := Mine(engine, child, pow, budget);
    verdict := Some(v);
    StaysBuiltOn(old(engine.View()), spec, child.spec, minerId, ts, tipTime, txs);
    if v == Checked(Accepted) {
      AcceptedIsStored(old(engine.View()), child.spec, child.hash, HashOf(child.body.worldState.tree), engine.View());
    }
  }
}
