/** One step of the chain walker as a function: the blocks it stores, the branch it rolls back, the
    checkpoint it moves, for every answer the provider may give and every call that may fail. */
module WalkerModel {
  import opened Sets
  import opened Wrappers

  type Hash = nat

  datatype Header = Header(hash: Hash, parent: Hash)

  /** A transfer log: where the provider says it happened, and the key of its payment row, which stands
      for the transaction hash and the log index. */
  datatype Event = Event(block: int, hash: Hash, id: nat)

  /** What the watcher remembers. `canonical` holds the block rows that are not orphaned, by height,
      `orphaned` the hashes of those that are, and `payments` the payment rows: the block number stored
      with each key. Two fields are kept for the proofs only: at each height, the hash against which the
      logs were last filtered, and the log answer that was filtered. */
  datatype Store = Store(canonical: map<int, Header>, orphaned: set<Hash>, checkpoint: int, payments: map<nat, int>,
                         filtered: map<int, Hash>, offered: map<int, seq<Event>>)

  datatype Settings = Settings(maxBlocks: nat, lookback: nat, maxDepth: nat)

  datatype Reply = Got(header: Header) | RpcFailed | Unusable

  /** The outside world during one step. `block` is what the provider answers at each call for a
      height, and `logs` what it answers for the logs of a span; `ok` says which of the other calls
      succeed. Calls are numbered in order. */
  datatype Env = Env(head: Option<int>, block: (nat, int) -> Reply, ok: nat -> bool, logs: nat -> seq<Event>)

  // ---- Store operations ------------------------------------------------------------------

  predicate HasCanonicalHash(s: Store, hash: Hash) {
    exists n | n in s.canonical :: s.canonical[n].hash == hash
  }

  predicate Known(s: Store, hash: Hash) {
    hash in s.orphaned || HasCanonicalHash(s, hash)
  }

  /** Would inserting `h` at `n` violate the index of one canonical block per height? */
  predicate Clashes(s: Store, n: int, h: Header, revives: bool) {
    if revives then n in s.canonical && s.canonical[n].hash != h.hash else !Known(s, h.hash) && n in s.canonical
  }

  /** `INSERT ... ON CONFLICT (chain_id, hash) DO NOTHING`. As shipped (`revives` false) a hash that is
      already stored, orphaned or not, is left as it is. With `revives` the insert makes the header
      canonical even if that hash had been orphaned. */
  function Inserted(s: Store, n: int, h: Header, revives: bool): Store {
    if n in s.canonical || (!revives && Known(s, h.hash)) then s
    else s.(canonical := s.canonical[n := h], orphaned := s.orphaned - {h.hash})
  }

  /** The header is now the canonical block of its height. */
  predicate Landed(s: Store, n: int, h: Header) {
    n in s.canonical && s.canonical[n].hash == h.hash
  }

  function OrphanedAbove(s: Store, a: int): Store {
    s.(canonical := map n | n in s.canonical && n <= a :: s.canonical[n],
       orphaned := s.orphaned + set n | n in s.canonical && n > a :: s.canonical[n].hash)
  }

  /** The highest of a set of heights. */
  ghost function Highest(heights: set<int>): (r: Option<int>)
    ensures r.None? <==> heights == {}
    ensures r.Some? ==> r.value in heights && forall n | n in heights :: n <= r.value
    decreases |heights|
  {
    if heights == {} then None
    else
      var n := Pick(heights);
      var rest := Highest(heights - {n});
      assert forall k | k in heights :: k == n || k in heights - {n};
      if rest.Some? && rest.value > n then rest else Some(n)
  }

  // ---- Rollback --------------------------------------------------------------------------

  datatype Search = Found(ancestor: int, tick: nat) | NoAncestor | Broken

  /** Walk down from `number` until nothing is stored or the provider agrees. */
  function FindAncestor(s: Store, env: Env, t: nat, number: int, depth: nat, maxDepth: nat): Search
    decreases maxDepth + 1 - depth
  {
    if number < 0 || depth > maxDepth then NoAncestor
    else if number !in s.canonical then Found(number, t)
    else
      match env.block(t, number)
      case Got(h) =>
        if h.hash == s.canonical[number].hash then Found(number, t + 1)
        else FindAncestor(s, env, t + 1, number - 1, depth + 1, maxDepth)
      case _ => Broken
  }

  datatype Verdict = Failed | TooDeep | Idle | RolledBack | Advanced

  /** How a rollback went: where it landed, and whether the checkpoint write followed the orphaning. */
  datatype Rollback = Rollback(ancestor: int, moved: bool)

  /** The end of a step. `landed` says that every header inserted became canonical at its height. */
  datatype StepResult = StepResult(store: Store, verdict: Verdict, landed: bool, rollback: Option<Rollback>)

  function RollBack(s: Store, env: Env, t: nat, from: int, cfg: Settings, landed: bool): StepResult {
    match FindAncestor(s, env, t, from, 0, cfg.maxDepth)
    case NoAncestor => StepResult(s, TooDeep, landed, None)
    case Broken => StepResult(s, Failed, landed, None)
    case Found(a, t') =>
      if !env.ok(t') then StepResult(s, Failed, landed, None)
      else
        var orphaned := OrphanedAbove(s, a);
        if !env.ok(t' + 1) then StepResult(orphaned, Failed, landed, Some(Rollback(a, false)))
        else StepResult(orphaned.(checkpoint := a), RolledBack, landed, Some(Rollback(a, true)))
  }

  // ---- One step --------------------------------------------------------------------------

  /** The parent-hash check: the height to roll back from, if the header does not fit. */
  function CheckParent(s: Store, n: int, h: Header): Option<int> {
    if n - 1 in s.canonical then
      if s.canonical[n - 1].hash == h.parent then None else Some(n - 1)
    else if n in s.canonical && s.canonical[n].hash != h.hash then Some(n - 1)
    else None
  }

  /** Keep an event unless its block was verified in this span under another hash. */
  predicate Kept(e: Event, headers: map<int, Hash>) {
    !(e.block in headers && headers[e.block] != e.hash)
  }

  /** The kept events, in the order in which they came. */
  function KeptEvents(events: seq<Event>, headers: map<int, Hash>): seq<Event> {
    if |events| == 0 then []
    else
      var e := events[|events| - 1];
      KeptEvents(events[..|events| - 1], headers) + if Kept(e, headers) then [e] else []
  }

  /** The payment rows after inserting the events in order: a key already stored keeps its row. */
  function Written(payments: map<nat, int>, events: seq<Event>): map<nat, int> {
    if |events| == 0 then payments
    else
      var e := events[|events| - 1];
      var before := Written(payments, events[..|events| - 1]);
      if e.id in before then before else before[e.id := e.block]
  }

  lemma WrittenNext(payments: map<nat, int>, events: seq<Event>, e: Event)
    ensures Written(payments, []) == payments
    ensures var before := Written(payments, events);
            Written(payments, events + [e]) == if e.id in before then before else before[e.id := e.block]
  {
    assert (events + [e])[..|events|] == events;
  }

  /** The logs of a verified span have been filtered and written. */
  function Recorded(s: Store, headers: map<int, Hash>, logs: seq<Event>): (s': Store)
    ensures s'.canonical == s.canonical && s'.orphaned == s.orphaned && s'.checkpoint == s.checkpoint
    ensures s'.filtered == s.filtered + headers
  {
    s.(payments := Written(s.payments, KeptEvents(logs, headers)),
       filtered := s.filtered + headers,
       offered := s.offered + (map n | n in headers :: logs))
  }

  /** Phase two: logs of the whole span, then the payments, then the checkpoint. */
  function Finish(s: Store, env: Env, t: nat, target: int, headers: map<int, Hash>, landed: bool): StepResult {
    if !env.ok(t) || !env.ok(t + 1) then StepResult(s, Failed, landed, None)
    else
      var read := Recorded(s, headers, env.logs(t));
      if !env.ok(t + 2) then StepResult(read, Failed, landed, None)
      else StepResult(read.(checkpoint := target), Advanced, landed, None)
  }

  /** Phase one from height `n` on: verify and store headers one at a time. */
  function Walk(s: Store, env: Env, t: nat, n: int, target: int, headers: map<int, Hash>, cfg: Settings, revives: bool,
                landed: bool): StepResult
    decreases target + 1 - n
  {
    if n > target then Finish(s, env, t, target, headers, landed)
    else
      match env.block(t, n)
      case Got(h) =>
        var from := CheckParent(s, n, h);
        if from.Some? then RollBack(s, env, t + 1, from.value, cfg, landed)
        else if !env.ok(t + 1) || Clashes(s, n, h, revives) then StepResult(s, Failed, landed, None)
        else
          var s' := Inserted(s, n, h, revives);
          Walk(s', env, t + 2, n + 1, target, headers[n := h.hash], cfg, revives, landed && Landed(s', n, h))
      case _ => StepResult(s, Failed, landed, None)
  }

  function EffectiveCheckpoint(s: Store, head: int, cfg: Settings): int {
    if s.checkpoint > 0 then s.checkpoint else if head - cfg.lookback > 0 then head - cfg.lookback else 0
  }

  function Target(head: int, checkpoint: int, cfg: Settings): int {
    if head < checkpoint + cfg.maxBlocks then head else checkpoint + cfg.maxBlocks
  }

  /** After the tail check: walk, unless the checkpoint has reached the head. */
  function Advance(s: Store, env: Env, t: nat, head: int, cfg: Settings, revives: bool): StepResult {
    var checkpoint := EffectiveCheckpoint(s, head, cfg);
    var target := Target(head, checkpoint, cfg);
    if checkpoint >= head || target <= checkpoint then StepResult(s, Idle, true, None)
    else Walk(s, env, t, checkpoint + 1, target, map[], cfg, revives, true)
  }

  /** One poll. Call 0 stands for reading the configuration; the tail check is the next call. */
  ghost function Step(s: Store, env: Env, cfg: Settings, revives: bool): StepResult {
    if env.head.None? || !env.ok(0) then StepResult(s, Failed, true, None)
    else
      var latest := Highest(s.canonical.Keys);
      if latest.None? then Advance(s, env, 1, env.head.value, cfg, revives)
      else
        match env.block(1, latest.value)
        case RpcFailed => Advance(s, env, 2, env.head.value, cfg, revives)
        case Unusable => StepResult(s, Failed, true, None)
        case Got(h) =>
          if h.hash == s.canonical[latest.value].hash then Advance(s, env, 2, env.head.value, cfg, revives)
          else RollBack(s, env, 2, latest.value, cfg, true)
  }

  /** A run: one step per environment. */
  ghost function Run(s: Store, envs: seq<Env>, cfg: Settings, revives: bool): Store {
    if |envs| == 0 then s else Step(Run(s, envs[..|envs| - 1], cfg, revives), envs[|envs| - 1], cfg, revives).store
  }
}
