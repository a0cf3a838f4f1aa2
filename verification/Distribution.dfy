/** One relay process serving and publishing at the same time (pavis-relay: runtime.rs, handlers.rs).

    Publishers hold the publish lock one at a time, but their updates of the snapshot, of the history
    map, of the waiters and of the ready flag are separate steps, and any number of `get_config`
    requests run between them. A run is any interleaving of these steps. */
module Distribution {
  import opened Common
  import Etag

  /** `checksum_for_bytes`, `etag_from_checksum` and the long-poll option. */
  datatype Env = Env(checksum: Bytes -> string, etag: string -> string, longPoll: bool)

  datatype Memory = Memory(version: nat, bytes: Bytes, sum: string)

  /** Where the publisher holding the lock stands. */
  datatype Publisher =
    | Free
    | Locked(bytes: Bytes)
    | Stored(bytes: Bytes, proposed: nat)
    | Updated(bytes: Bytes, proposed: nat, changed: bool)
    | Recorded(proposed: nat, changed: bool)
    | Notified(proposed: nat)

  datatype Response =
    | Artifact(version: nat, body: Bytes, tag: string)
    | NoContent(tag: string)
    | NotModified(tag: string)
    | Unavailable
    | BadRequest

  /** A `get_config` request: `sent` is the parsed If-None-Match, `seen` the ETags of the snapshots
      this request has taken so far, `registered` the checksum current when it began to wait. */
  datatype Poll =
    | Idle
    | Asked(sent: Option<string>, waitMs: nat)
    | Ready(sent: Option<string>, waitMs: nat)
    | Looping(sent: Option<string>, current: string, seen: seq<string>)
    | Waiting(sent: Option<string>, current: string, seen: seq<string>, woken: bool, registered: string)
    | Done(sent: Option<string>, response: Response, seen: seq<string>)

  /** A client and the version and ETag of its last 200. */
  datatype Client = Client(tag: Option<string>, version: nat, poll: Poll)

  datatype State = State(
    mem: Memory,
    history: map<nat, Bytes>,
    ready: bool,
    publisher: Publisher,
    acked: seq<nat>,
    refused: nat,
    clients: map<nat, Client>)

  datatype Label =
    | Lock(bytes: Bytes)
    | Store(ok: bool)
    | Update
    | Record
    | Notify
    | MarkReady
    | Ask(id: nat, sent: Option<string>, waitMs: nat)
    | CheckReady(id: nat)
    | Snap(id: nat)
    | Register(id: nat)
    | Wake(id: nat)
    | Expire(id: nat)
    | Take(id: nat)

  const MAX_WAIT_MS := 60000

  /** `RelayRuntimeState::new_with_options` on what startup loaded. */
  function Initial(env: Env, version: nat, bytes: Bytes, ids: set<nat>): State {
    State(Memory(version, bytes, if bytes == [] then "" else env.checksum(bytes)), map[version := bytes], bytes != [],
          Free, [], 0, map id | id in ids :: Client(None, 0, Idle))
  }

  function Tag(env: Env, mem: Memory): string { env.etag(mem.sum) }

  function Ok200(env: Env, mem: Memory): Response { Artifact(mem.version, mem.bytes, Tag(env, mem)) }

  /** `notify_waiters`: every registered waiter is woken. */
  function WakeAll(clients: map<nat, Client>): map<nat, Client> {
    map id | id in clients ::
      if clients[id].poll.Waiting? then clients[id].(poll := clients[id].poll.(woken := true)) else clients[id]
  }

  /** The decision after the first snapshot of a request. */
  function FirstDecision(env: Env, mem: Memory, sent: Option<string>, waitMs: nat): Poll {
    var tag := Tag(env, mem);
    if sent.Some? && sent.value != tag then Done(sent, Ok200(env, mem), [tag])
    else if sent.None? && waitMs > 0 then Done(sent, Ok200(env, mem), [tag])
    else if waitMs > 0 && env.longPoll then Looping(sent, tag, [tag])
    else if sent.Some? then Done(sent, NotModified(tag), [tag])
    else Done(sent, Ok200(env, mem), [tag])
  }

  function PublishStep(env: Env, s: State, l: Label): State {
    match (s.publisher, l)
    case (Free, Lock(b)) => s.(publisher := Locked(b))
    case (Locked(b), Store(ok)) => s.(publisher := if ok then Stored(b, s.mem.version + 1) else Free)
    case (Stored(b, v), Update) =>
      if v <= s.mem.version then s.(publisher := Free, refused := s.refused + 1)
      else s.(mem := Memory(v, b, env.checksum(b)), publisher := Updated(b, v, s.mem.sum != env.checksum(b)))
    case (Updated(b, v, changed), Record) => s.(history := s.history[v := b], publisher := Recorded(v, changed))
    case (Recorded(v, changed), Notify) =>
      s.(publisher := Notified(v), clients := if changed then WakeAll(s.clients) else s.clients)
    case (Notified(v), MarkReady) => s.(ready := true, publisher := Free, acked := s.acked + [v])
    case (_, _) => s
  }

  /** A request's own step: it reads the snapshot and the ready flag, and changes only its client. */
  function ClientStep(env: Env, mem: Memory, ready: bool, c: Client, l: Label): Client {
    match (c.poll, l)
    case (Idle, Ask(_, sent, w)) => c.(poll := Asked(sent, w))
    case (Asked(sent, w), CheckReady(_)) =>
      c.(poll := if !ready then Done(sent, Unavailable, [])
                 else if w > MAX_WAIT_MS then Done(sent, BadRequest, [])
                 else Ready(sent, w))
    case (Ready(sent, w), Snap(_)) => c.(poll := FirstDecision(env, mem, sent, w))
    case (Looping(sent, current, seen), Register(_)) => c.(poll := Waiting(sent, current, seen, false, mem.sum))
    case (Looping(sent, current, seen), Expire(_)) => c.(poll := Done(sent, NoContent(current), seen))
    case (Waiting(sent, current, seen, woken, _), Wake(_)) =>
      if !woken then c
      else
        var tag := Tag(env, mem);
        c.(poll := if tag != current then Done(sent, Ok200(env, mem), seen + [tag])
                   else Looping(sent, tag, seen + [tag]))
    case (Waiting(sent, current, seen, woken, _), Expire(_)) =>
      if woken then c else c.(poll := Done(sent, NoContent(current), seen))
    case (Done(_, r, _), Take(_)) => if r.Artifact? then Client(Some(r.tag), r.version, Idle) else c.(poll := Idle)
    case (_, _) => c
  }

  function PollStep(env: Env, s: State, l: Label): State
    requires !IsPublish(l)
  {
    if l.id in s.clients
    then s.(clients := s.clients[l.id := ClientStep(env, s.mem, s.ready, s.clients[l.id], l)])
    else s
  }

  predicate IsPublish(l: Label) {
    l.Lock? || l.Store? || l.Update? || l.Record? || l.Notify? || l.MarkReady?
  }

  function Step(env: Env, s: State, l: Label): State {
    if IsPublish(l) then PublishStep(env, s, l) else PollStep(env, s, l)
  }

  function Run(env: Env, s: State, labels: seq<Label>): State {
    if labels == [] then s else Step(env, Run(env, s, labels[..|labels| - 1]), labels[|labels| - 1])
  }

  /* ---- invariant: the published log ---- */

  /** Every version handed out so far with its artifact; the last one may not be in `history` yet. */
  function Log(s: State): map<nat, Bytes> {
    if s.publisher.Updated? then s.history[s.publisher.proposed := s.publisher.bytes] else s.history
  }

  predicate Pending(p: Publisher) { p.Updated? || p.Recorded? || p.Notified? }

  function PendingVersion(p: Publisher): nat
    requires Pending(p)
  {
    match p case Updated(_, v, _) => v case Recorded(v, _) => v case Notified(v) => v
  }

  ghost predicate LogInv(env: Env, first: nat, s: State) {
    && first <= s.mem.version
    && (forall v :: v in Log(s) <==> first <= v <= s.mem.version)
    && Log(s)[s.mem.version] == s.mem.bytes
    && (s.ready || Pending(s.publisher) ==> s.mem.sum == env.checksum(s.mem.bytes))
    && (s.publisher.Stored? ==> s.publisher.proposed == s.mem.version + 1)
    && (Pending(s.publisher) ==> PendingVersion(s.publisher) == s.mem.version)
    && s.refused == 0
    && s.mem.version == first + |s.acked| + (if Pending(s.publisher) then 1 else 0)
    && forall i | 0 <= i < |s.acked| :: s.acked[i] == first + 1 + i
  }

  /* ---- invariant: the clients ---- */

  function TagOf(env: Env, b: Bytes): string { env.etag(env.checksum(b)) }

  /** `r` is a faithful 200: an artifact of the log under its own ETag. */
  ghost predicate FromLog(env: Env, s: State, version: nat, tag: string) {
    version in Log(s) && tag == TagOf(env, Log(s)[version])
  }

  /** A checksum some published artifact has. */
  ghost predicate SumInLog(env: Env, s: State, sum: string) {
    exists v :: v in Log(s) && env.checksum(Log(s)[v]) == sum
  }

  predicate LastSeen(seen: seq<string>, tag: string) { seen != [] && seen[|seen| - 1] == tag }

  ghost predicate GoodPoll(env: Env, s: State, c: Client) {
    match c.poll
    case Idle => true
    case Asked(_, _) => true
    case Ready(_, _) => s.ready
    case Looping(sent, current, seen) => s.ready && sent == Some(current) && LastSeen(seen, current)
    case Waiting(sent, current, seen, woken, registered) =>
      && s.ready && sent == Some(current) && LastSeen(seen, current) && SumInLog(env, s, registered)
      && (!woken && registered != s.mem.sum ==>
            (s.publisher.Updated? || s.publisher.Recorded?) && s.publisher.changed)
    case Done(sent, r, seen) => GoodResponse(env, s, c, sent, r, seen)
  }

  ghost predicate GoodResponse(env: Env, s: State, c: Client, sent: Option<string>, r: Response, seen: seq<string>) {
    match r
    case Artifact(v, body, tag) =>
      && FromLog(env, s, v, tag) && Log(s)[v] == body && c.version <= v
      && sent != Some(tag) && tag in seen
    case NoContent(tag) => sent == Some(tag) && tag in seen
    case NotModified(tag) => sent == Some(tag) && tag in seen
    case Unavailable => seen == []
    case BadRequest => seen == []
  }

  ghost predicate GoodClient(env: Env, s: State, c: Client) {
    && c.version <= s.mem.version
    && (c.tag.Some? ==> FromLog(env, s, c.version, c.tag.value))
    && GoodPoll(env, s, c)
  }

  ghost predicate Inv(env: Env, first: nat, s: State) {
    LogInv(env, first, s) && forall id | id in s.clients :: GoodClient(env, s, s.clients[id])
  }

  /** What a step may do to the log: nothing but append the next version. */
  ghost predicate Extends(s: State, s': State) {
    && s.mem.version <= s'.mem.version
    && (s.ready ==> s'.ready)
    && forall v | v in Log(s) :: v in Log(s') && Log(s')[v] == Log(s)[v]
  }

  lemma UpdateKeepsLog(env: Env, first: nat, s: State)
    requires LogInv(env, first, s)
    ensures LogInv(env, first, PublishStep(env, s, Update)) && Extends(s, PublishStep(env, s, Update))
  {
  }

  lemma RecordKeepsLog(env: Env, first: nat, s: State)
    requires LogInv(env, first, s)
    ensures LogInv(env, first, PublishStep(env, s, Record)) && Extends(s, PublishStep(env, s, Record))
  {
  }

  lemma PublishKeepsLog(env: Env, first: nat, s: State, l: Label)
    requires LogInv(env, first, s)
    ensures LogInv(env, first, PublishStep(env, s, l)) && Extends(s, PublishStep(env, s, l))
  {
    if l.Update? { UpdateKeepsLog(env, first, s); } else if l.Record? { RecordKeepsLog(env, first, s); }
  }

  /** A client's facts survive any extension of the log that leaves its own record alone, as long as
      a change of the checksum is still owed to the waiters. */
  lemma ExtendsKeepsClient(env: Env, s: State, s': State, c: Client)
    requires GoodClient(env, s, c) && Extends(s, s')
    requires c.poll.Waiting? ==> GoodPoll(env, s', c)
    ensures GoodClient(env, s', c)
  {
  }

  lemma PublishKeepsClient(env: Env, first: nat, s: State, l: Label, id: nat)
    requires LogInv(env, first, s) && IsPublish(l) && id in s.clients && GoodClient(env, s, s.clients[id])
    requires Extends(s, PublishStep(env, s, l))
    ensures var s' := PublishStep(env, s, l); id in s'.clients && GoodClient(env, s', s'.clients[id])
  {
    var s' := PublishStep(env, s, l);
    if s'.clients[id] == s.clients[id] { ExtendsKeepsClient(env, s, s', s.clients[id]); }
  }

  lemma PublishKeepsClients(env: Env, first: nat, s: State, l: Label)
    requires Inv(env, first, s) && IsPublish(l)
    ensures Inv(env, first, PublishStep(env, s, l))
  {
    var s' := PublishStep(env, s, l);
    PublishKeepsLog(env, first, s, l);
    assert s'.clients.Keys == s.clients.Keys;
    forall id | id in s'.clients ensures GoodClient(env, s', s'.clients[id]) {
      PublishKeepsClient(env, first, s, l, id);
    }
  }

  lemma OwnStepKeepsClient(env: Env, first: nat, s: State, c: Client, l: Label)
    requires LogInv(env, first, s) && GoodClient(env, s, c)
    ensures GoodClient(env, s, ClientStep(env, s.mem, s.ready, c, l))
  {
    if s.ready { assert FromLog(env, s, s.mem.version, Tag(env, s.mem)); }
  }

  lemma PollKeepsInv(env: Env, first: nat, s: State, l: Label)
    requires Inv(env, first, s) && !IsPublish(l)
    ensures Inv(env, first, PollStep(env, s, l)) && Extends(s, PollStep(env, s, l))
  {
    var s' := PollStep(env, s, l);
    assert Log(s') == Log(s);
    forall id | id in s'.clients ensures GoodClient(env, s', s'.clients[id]) {
      assert GoodClient(env, s, s.clients[id]);
      OwnStepKeepsClient(env, first, s, s.clients[id], l);
      assert GoodClient(env, s, s'.clients[id]);
    }
  }

  lemma StepKeepsInv(env: Env, first: nat, s: State, l: Label)
    requires Inv(env, first, s)
    ensures Inv(env, first, Step(env, s, l)) && Extends(s, Step(env, s, l))
  {
    if IsPublish(l) {
      PublishKeepsLog(env, first, s, l);
      PublishKeepsClients(env, first, s, l);
    } else {
      PollKeepsInv(env, first, s, l);
    }
  }

  /* ---- every run ---- */

  lemma ExtendsTransitive(s: State, t: State, u: State)
    requires Extends(s, t) && Extends(t, u)
    ensures Extends(s, u)
  {
  }

  lemma {:induction false} RunExtends(env: Env, first: nat, s: State, labels: seq<Label>)
    requires Inv(env, first, s)
    ensures Inv(env, first, Run(env, s, labels)) && Extends(s, Run(env, s, labels))
  {
    if labels != [] {
      var front := labels[..|labels| - 1];
      RunExtends(env, first, s, front);
      StepKeepsInv(env, first, Run(env, s, front), labels[|labels| - 1]);
      ExtendsTransitive(s, Run(env, s, front), Run(env, s, labels));
    }
  }

  lemma {:induction false} RunConcat(env: Env, s: State, labels: seq<Label>, more: seq<Label>)
    ensures Run(env, s, labels + more) == Run(env, Run(env, s, labels), more)
  {
    if more == [] {
      assert labels + more == labels;
    } else {
      var n, all := |more| - 1, labels + more;
      RunConcat(env, s, labels, more[..n]);
      assert all[..|all| - 1] == labels + more[..n];
    }
  }

  lemma InitialInv(env: Env, version: nat, bytes: Bytes, ids: set<nat>)
    ensures Inv(env, version, Initial(env, version, bytes, ids))
  {
  }

  lemma RunKeepsInv(env: Env, version: nat, bytes: Bytes, ids: set<nat>, labels: seq<Label>)
    ensures Inv(env, version, Run(env, Initial(env, version, bytes, ids), labels))
  {
    InitialInv(env, version, bytes, ids);
    RunExtends(env, version, Initial(env, version, bytes, ids), labels);
  }

  /** Publishes that succeed are given consecutive versions, and the monotonicity check of
      `execute_plan` never refuses one. With the lock free, memory and history agree. */
  lemma PublishesAreConsecutive(env: Env, version: nat, bytes: Bytes, ids: set<nat>, labels: seq<Label>)
    ensures var s := Run(env, Initial(env, version, bytes, ids), labels);
      && s.refused == 0
      && (forall i | 0 <= i < |s.acked| :: s.acked[i] == version + 1 + i)
      && (s.publisher.Free? ==>
            && s.mem.version == version + |s.acked|
            && s.mem.version in s.history && s.history[s.mem.version] == s.mem.bytes
            && forall v :: v in s.history <==> version <= v <= s.mem.version)
  {
    RunKeepsInv(env, version, bytes, ids, labels);
  }

  /** Versions never go back, and a version's artifact never changes once handed out. */
  lemma PublishedArtifactsNeverChange(
    env: Env, version: nat, bytes: Bytes, ids: set<nat>, labels: seq<Label>, more: seq<Label>)
    ensures var s0 := Initial(env, version, bytes, ids); Extends(Run(env, s0, labels), Run(env, s0, labels + more))
  {
    var s0 := Initial(env, version, bytes, ids);
    RunKeepsInv(env, version, bytes, ids, labels);
    RunExtends(env, version, Run(env, s0, labels), more);
    RunConcat(env, s0, labels, more);
  }

  /** Every finished request, in every interleaving: a 200 carries an artifact of the log under its own
      ETag, which is not the one sent; a 204 or 304 repeats the ETag that was sent, and a snapshot
      taken during the request had it. */
  lemma ResponsesAreFaithful(env: Env, version: nat, bytes: Bytes, ids: set<nat>, labels: seq<Label>, id: nat)
    requires var s := Run(env, Initial(env, version, bytes, ids), labels);
      id in s.clients && s.clients[id].poll.Done?
    ensures var s := Run(env, Initial(env, version, bytes, ids), labels);
      var p := s.clients[id].poll;
      match p.response
      case Artifact(v, body, tag) =>
        v in Log(s) && Log(s)[v] == body && tag == TagOf(env, body) && p.sent != Some(tag) && tag in p.seen
      case NoContent(tag) => p.sent == Some(tag) && tag in p.seen
      case NotModified(tag) => p.sent == Some(tag) && tag in p.seen
      case Unavailable => p.seen == []
      case BadRequest => p.seen == []
  {
    RunKeepsInv(env, version, bytes, ids, labels);
    var s := Run(env, Initial(env, version, bytes, ids), labels);
    assert GoodClient(env, s, s.clients[id]);
  }

  lemma FreshAnswerIsNewer(env: Env, s: State, c: Client)
    requires GoodClient(env, s, c) && c.poll.Done? && c.poll.response.Artifact?
    requires c.tag.Some? && c.poll.sent == c.tag
    ensures c.version < c.poll.response.version
  {
    var r := c.poll.response;
    assert GoodResponse(env, s, c, c.poll.sent, r, c.poll.seen);
    assert FromLog(env, s, c.version, c.tag.value) && r.tag != c.tag.value;
  }

  /** A client that sends back the ETag of its last 200 sees strictly increasing versions, even when
      an old artifact is published again under a new version. */
  lemma ClientVersionsIncrease(env: Env, version: nat, bytes: Bytes, ids: set<nat>, labels: seq<Label>, id: nat)
    requires var s := Run(env, Initial(env, version, bytes, ids), labels);
      && id in s.clients && s.clients[id].poll.Done? && s.clients[id].poll.response.Artifact?
      && s.clients[id].tag.Some? && s.clients[id].poll.sent == s.clients[id].tag
    ensures var s := Run(env, Initial(env, version, bytes, ids), labels);
      s.clients[id].version < s.clients[id].poll.response.version
  {
    RunKeepsInv(env, version, bytes, ids, labels);
    var s := Run(env, Initial(env, version, bytes, ids), labels);
    FreshAnswerIsNewer(env, s, s.clients[id]);
  }

  /* ---- wakeups ---- */

  /** Between publishes, a request that waits and was not woken has missed nothing since it
      registered: the checksum is still the one it registered under. */
  lemma NoWakeupIsLostAfterRegistration(
    env: Env, version: nat, bytes: Bytes, ids: set<nat>, labels: seq<Label>, id: nat)
    requires var s := Run(env, Initial(env, version, bytes, ids), labels);
      s.publisher.Free? && id in s.clients && s.clients[id].poll.Waiting? && !s.clients[id].poll.woken
    ensures var s := Run(env, Initial(env, version, bytes, ids), labels);
      var p := s.clients[id].poll;
      && p.registered == s.mem.sum
      && (Tag(env, s.mem) != p.current <==> env.etag(p.registered) != p.current)
  {
    RunKeepsInv(env, version, bytes, ids, labels);
    var s := Run(env, Initial(env, version, bytes, ids), labels);
    assert GoodClient(env, s, s.clients[id]);
  }

  /** A publisher has changed the checksum and not yet told the waiters. */
  predicate Owed(p: Publisher) { (p.Updated? || p.Recorded?) && p.changed }

  /** Every 204 comes from a deadline, with the tag of the request's last snapshot. */
  lemma NoContentComesFromExpiry(env: Env, s: State, l: Label, id: nat)
    requires id in s.clients && id in Step(env, s, l).clients
    requires !s.clients[id].poll.Done? && Step(env, s, l).clients[id].poll.Done?
             && Step(env, s, l).clients[id].poll.response.NoContent?
    ensures var p := s.clients[id].poll;
      && l == Expire(id) && (p.Looping? || (p.Waiting? && !p.woken))
      && Step(env, s, l).clients[id].poll.response == NoContent(p.current)
  {
  }

  /** Tags tell checksums of artifacts apart. */
  ghost predicate TagsAreFaithful(env: Env) {
    forall a: Bytes, b: Bytes :: TagOf(env, a) == TagOf(env, b) ==> env.checksum(a) == env.checksum(b)
  }

  /** The relay's own labels and tags do. */
  lemma LabelsAreFaithful(env: Env, digest: Bytes -> Bytes)
    requires forall b :: env.checksum(b) == Etag.Label(digest(b))
    requires forall c :: env.etag(c) == Etag.EtagFromChecksum(c)
    ensures TagsAreFaithful(env)
  {
    forall a: Bytes, b: Bytes | TagOf(env, a) == TagOf(env, b) ensures env.checksum(a) == env.checksum(b) {
      Etag.LabelIsLower(digest(a));
      Etag.LabelIsLower(digest(b));
    }
  }

  /** Which 204 answers of a waiting request are stale, over every interleaving. Once the waiters are told,
      the checksum is the one the request registered under; so with no notification owed, the answer is
      stale exactly when the request registered under another tag than its snapshot's. With one owed, a
      request that registered under its own tag gets a stale answer exactly when the checksum has moved
      on, and one that registered under another tag is spared only if the update brought its own back. A
      request that runs out of time before it registers again has only its last snapshot to go by. */
  lemma StaleNoContentExactlyWhen(env: Env, version: nat, bytes: Bytes, ids: set<nat>, labels: seq<Label>, id: nat)
    requires TagsAreFaithful(env)
    requires var s := Run(env, Initial(env, version, bytes, ids), labels);
      id in s.clients && (s.clients[id].poll.Looping? || (s.clients[id].poll.Waiting? && !s.clients[id].poll.woken))
    ensures var s := Run(env, Initial(env, version, bytes, ids), labels);
      var p, answer := s.clients[id].poll, Step(env, s, Expire(id)).clients[id].poll;
      var stale := Tag(env, s.mem) != p.current;
      && answer == Done(p.sent, NoContent(p.current), p.seen)
      && (p.Waiting? ==>
            && (p.registered != s.mem.sum ==> Owed(s.publisher))
            && (!Owed(s.publisher) ==> (stale <==> env.etag(p.registered) != p.current))
            && (env.etag(p.registered) == p.current ==> (stale <==> p.registered != s.mem.sum))
            && (env.etag(p.registered) != p.current && !stale ==> Owed(s.publisher) && p.registered != s.mem.sum))
      && (p.Looping? ==> LastSeen(p.seen, p.current))
  {
    RunKeepsInv(env, version, bytes, ids, labels);
    var s := Run(env, Initial(env, version, bytes, ids), labels);
    assert GoodClient(env, s, s.clients[id]);
    if s.clients[id].poll.Waiting? { WaiterSums(env, version, s, s.clients[id]); }
  }

  /** The checksum a waiter registered under and the current one are told apart by their tags. */
  lemma WaiterSums(env: Env, first: nat, s: State, c: Client)
    requires TagsAreFaithful(env) && LogInv(env, first, s) && GoodClient(env, s, c) && c.poll.Waiting?
    ensures env.etag(c.poll.registered) == Tag(env, s.mem) <==> c.poll.registered == s.mem.sum
  {
    var v :| v in Log(s) && env.checksum(Log(s)[v]) == c.poll.registered;
    assert TagOf(env, Log(s)[v]) == env.etag(c.poll.registered) && TagOf(env, s.mem.bytes) == Tag(env, s.mem);
  }

  lemma RunSnoc(env: Env, s: State, labels: seq<Label>, l: Label)
    ensures Run(env, s, labels + [l]) == Step(env, Run(env, s, labels), l)
  {
    assert (labels + [l])[..|labels|] == labels;
  }

  ghost predicate Reaches(env: Env, s0: State, labels: seq<Label>, s: State) { Run(env, s0, labels) == s }

  lemma Extend(env: Env, s0: State, labels: seq<Label>, s: State, l: Label) returns (longer: seq<Label>)
    requires Reaches(env, s0, labels, s)
    ensures Reaches(env, s0, longer, Step(env, s, l))
  {
    RunSnoc(env, s0, labels, l);
    longer := labels + [l];
  }

  function AfterPublish(env: Env, s: State, b: Bytes): State {
    var v := s.mem.version + 1;
    s.(mem := Memory(v, b, env.checksum(b)), history := s.history[v := b], ready := true, acked := s.acked + [v])
  }

  lemma PublishUpdates(env: Env, s: State, b: Bytes)
    requires s.publisher.Free?
    ensures var v := s.mem.version + 1;
      Step(env, Step(env, Step(env, s, Lock(b)), Store(true)), Update)
      == s.(mem := Memory(v, b, env.checksum(b)), publisher := Updated(b, v, s.mem.sum != env.checksum(b)))
  {
    assert Step(env, Step(env, s, Lock(b)), Store(true)) == s.(publisher := Stored(b, s.mem.version + 1));
  }

  lemma PublishFinishes(env: Env, s: State)
    requires s.publisher.Updated? && forall id | id in s.clients :: !s.clients[id].poll.Waiting?
    ensures var p := s.publisher;
      Step(env, Step(env, Step(env, s, Record), Notify), MarkReady)
      == s.(history := s.history[p.proposed := p.bytes], ready := true, publisher := Free,
            acked := s.acked + [p.proposed])
  {
    assert WakeAll(s.clients) == s.clients;
  }

  lemma PublishSteps(env: Env, s: State, b: Bytes)
    requires s.publisher.Free? && forall id | id in s.clients :: !s.clients[id].poll.Waiting?
    ensures var s1 := Step(env, Step(env, Step(env, s, Lock(b)), Store(true)), Update);
      Step(env, Step(env, Step(env, s1, Record), Notify), MarkReady) == AfterPublish(env, s, b)
  {
    PublishUpdates(env, s, b);
    PublishFinishes(env, Step(env, Step(env, Step(env, s, Lock(b)), Store(true)), Update));
  }

  lemma PublishReaches(env: Env, s0: State, labels: seq<Label>, s: State, b: Bytes) returns (longer: seq<Label>)
    requires Reaches(env, s0, labels, s)
    requires s.publisher.Free? && forall id | id in s.clients :: !s.clients[id].poll.Waiting?
    ensures Reaches(env, s0, longer, AfterPublish(env, s, b))
  {
    PublishSteps(env, s, b);
    longer := Extend(env, s0, labels, s, Lock(b));
    longer := Extend(env, s0, longer, Step(env, s, Lock(b)), Store(true));
    var s' := Step(env, Step(env, s, Lock(b)), Store(true));
    longer := Extend(env, s0, longer, s', Update);
    s' := Step(env, s', Update);
    longer := Extend(env, s0, longer, s', Record);
    s' := Step(env, s', Record);
    longer := Extend(env, s0, longer, s', Notify);
    longer := Extend(env, s0, longer, Step(env, s', Notify), MarkReady);
  }

  /** A request's step, seen from the other clients' records. */
  lemma OwnStep(env: Env, s: State, id: nat, c: Client, l: Label)
    requires !IsPublish(l) && l.id == id && id in s.clients
    ensures Step(env, s.(clients := s.clients[id := c]), l)
         == s.(clients := s.clients[id := ClientStep(env, s.mem, s.ready, c, l)])
  {
    var with' := s.clients[id := c];
    assert with'[id := ClientStep(env, s.mem, s.ready, c, l)] == s.clients[id := ClientStep(env, s.mem, s.ready, c, l)];
  }

  /** An idle client's request with the current tag, up to its waiting loop. */
  lemma AskReaches(env: Env, s0: State, labels: seq<Label>, s: State) returns (longer: seq<Label>)
    requires Reaches(env, s0, labels, s) && env.longPoll && s.ready
    requires 0 in s.clients && s.clients[0] == Client(None, 0, Idle)
    ensures var tag := Tag(env, s.mem);
      Reaches(env, s0, longer, s.(clients := s.clients[0 := Client(None, 0, Looping(Some(tag), tag, [tag]))]))
  {
    var tag := Tag(env, s.mem);
    var idle, asked := Client(None, 0, Idle), Client(None, 0, Asked(Some(tag), 1000));
    var ready := Client(None, 0, Ready(Some(tag), 1000));
    assert s.clients[0 := idle] == s.clients;
    OwnStep(env, s, 0, idle, Ask(0, Some(tag), 1000));
    OwnStep(env, s, 0, asked, CheckReady(0));
    OwnStep(env, s, 0, ready, Snap(0));
    longer := Extend(env, s0, labels, s, Ask(0, Some(tag), 1000));
    longer := Extend(env, s0, longer, s.(clients := s.clients[0 := asked]), CheckReady(0));
    longer := Extend(env, s0, longer, s.(clients := s.clients[0 := ready]), Snap(0));
  }

  lemma UpdateReaches(env: Env, s0: State, labels: seq<Label>, s: State, b: Bytes) returns (longer: seq<Label>)
    requires Reaches(env, s0, labels, s) && s.publisher.Free?
    ensures var v := s.mem.version + 1;
      Reaches(env, s0, longer,
              s.(mem := Memory(v, b, env.checksum(b)), publisher := Updated(b, v, s.mem.sum != env.checksum(b))))
  {
    PublishUpdates(env, s, b);
    longer := Extend(env, s0, labels, s, Lock(b));
    longer := Extend(env, s0, longer, Step(env, s, Lock(b)), Store(true));
    longer := Extend(env, s0, longer, Step(env, Step(env, s, Lock(b)), Store(true)), Update);
  }

  /** The other way to a stale answer: the deadline falls between a publisher's update and its notification. */
  lemma AnswerBeforeNotificationIsStale(env: Env, version: nat, bytes: Bytes, newer: Bytes) returns (labels: seq<Label>)
    requires env.longPoll && bytes != [] && TagOf(env, bytes) != TagOf(env, newer)
    ensures var s := Run(env, Initial(env, version, bytes, {0}), labels);
      && s.mem.bytes == newer && Owed(s.publisher) && Tag(env, s.mem) == TagOf(env, newer)
      && 0 in s.clients && s.clients[0].poll.Done? && s.clients[0].poll.response == NoContent(TagOf(env, bytes))
  {
    var tag, s0 := TagOf(env, bytes), Initial(env, version, bytes, {0});
    var looping := s0.(clients := s0.clients[0 := Client(None, 0, Looping(Some(tag), tag, [tag]))]);
    labels := AskReaches(env, s0, [], s0);
    labels := RegisterReaches(env, s0, labels, looping, 0);
    var waiting := Client(None, 0, Waiting(Some(tag), tag, [tag], false, s0.mem.sum));
    var s1 := looping.(clients := looping.clients[0 := waiting]);
    labels := UpdateReaches(env, s0, labels, s1, newer);
    var updated := Updated(newer, version + 1, s1.mem.sum != env.checksum(newer));
    var s2 := s1.(mem := Memory(version + 1, newer, env.checksum(newer)), publisher := updated);
    labels := DeadlineReaches(env, s0, labels, s2, 0);
  }

  /** A notification owed is not enough for it: a request that asked after the update is up to date. */
  lemma OwedNeedNotBeStale(env: Env, version: nat, bytes: Bytes, newer: Bytes) returns (labels: seq<Label>)
    requires env.longPoll && bytes != [] && TagOf(env, bytes) != TagOf(env, newer)
    ensures var s := Run(env, Initial(env, version, bytes, {0}), labels);
      && Owed(s.publisher) && 0 in s.clients && s.clients[0].poll.Waiting? && !s.clients[0].poll.woken
      && Tag(env, s.mem) == s.clients[0].poll.current
  {
    var s0 := Initial(env, version, bytes, {0});
    var updated := Updated(newer, version + 1, s0.mem.sum != env.checksum(newer));
    var s1 := s0.(mem := Memory(version + 1, newer, env.checksum(newer)), publisher := updated);
    var tag := Tag(env, s1.mem);
    assert Reaches(env, s0, [], s0);
    labels := UpdateReaches(env, s0, [], s0, newer);
    labels := AskReaches(env, s0, labels, s1);
    var looping := Client(None, 0, Looping(Some(tag), tag, [tag]));
    labels := RegisterReaches(env, s0, labels, s1.(clients := s1.clients[0 := looping]), 0);
  }

  lemma RegisterReaches(env: Env, s0: State, labels: seq<Label>, s: State, id: nat) returns (longer: seq<Label>)
    requires Reaches(env, s0, labels, s) && id in s.clients && s.clients[id].poll.Looping?
    ensures var c := s.clients[id];
      var waiting := c.(poll := Waiting(c.poll.sent, c.poll.current, c.poll.seen, false, s.mem.sum));
      Reaches(env, s0, longer, s.(clients := s.clients[id := waiting]))
  {
    longer := Extend(env, s0, labels, s, Register(id));
  }

  lemma DeadlineReaches(env: Env, s0: State, labels: seq<Label>, s: State, id: nat) returns (longer: seq<Label>)
    requires Reaches(env, s0, labels, s) && id in s.clients && s.clients[id].poll.Waiting? && !s.clients[id].poll.woken
    ensures var c := s.clients[id];
      var done := c.(poll := Done(c.poll.sent, NoContent(c.poll.current), c.poll.seen));
      Reaches(env, s0, longer, s.(clients := s.clients[id := done]))
  {
    longer := Extend(env, s0, labels, s, Expire(id));
  }

  lemma ExpireReaches(env: Env, s0: State, labels: seq<Label>, s: State, id: nat) returns (longer: seq<Label>)
    requires Reaches(env, s0, labels, s) && id in s.clients && s.clients[id].poll.Looping?
    ensures var c := s.clients[id];
      var done := c.(poll := Done(c.poll.sent, NoContent(c.poll.current), c.poll.seen));
      Reaches(env, s0, longer, s.(clients := s.clients[id := done]))
  {
    var c := s.clients[id];
    var waiting := c.(poll := Waiting(c.poll.sent, c.poll.current, c.poll.seen, false, s.mem.sum));
    var done := c.(poll := Done(c.poll.sent, NoContent(c.poll.current), c.poll.seen));
    longer := RegisterReaches(env, s0, labels, s, id);
    longer := DeadlineReaches(env, s0, longer, s.(clients := s.clients[id := waiting]), id);
    assert s.clients[id := waiting][id := done] == s.clients[id := done];
  }

  /** A publish can be missed by one request: when it lands between the request's snapshot and its
      registration, the request ends in a 204 under the old ETag. */
  lemma PublishBeforeRegistrationIsMissed(env: Env, version: nat, bytes: Bytes, newer: Bytes)
    returns (labels: seq<Label>)
    requires env.longPoll && bytes != [] && TagOf(env, bytes) != TagOf(env, newer)
    ensures var s := Run(env, Initial(env, version, bytes, {0}), labels);
      && s.mem.version == version + 1 && s.mem.bytes == newer && s.publisher.Free?
      && 0 in s.clients && s.clients[0].poll.Done? && s.clients[0].poll.response == NoContent(TagOf(env, bytes))
  {
    var tag, s0 := TagOf(env, bytes), Initial(env, version, bytes, {0});
    var s1 := s0.(clients := s0.clients[0 := Client(None, 0, Looping(Some(tag), tag, [tag]))]);
    labels := AskReaches(env, s0, [], s0);
    labels := PublishReaches(env, s0, labels, s1, newer);
    labels := ExpireReaches(env, s0, labels, AfterPublish(env, s1, newer), 0);
  }

  /** ... but only by that one: the next request with the old ETag is answered at once, whatever
      its waiting time. */
  lemma NextRequestCatchesUp(env: Env, version: nat, bytes: Bytes, ids: set<nat>, labels: seq<Label>, id: nat)
    requires var s := Run(env, Initial(env, version, bytes, ids), labels);
      && id in s.clients && s.clients[id].poll.Ready?
      && s.clients[id].poll.sent.Some? && s.clients[id].poll.sent != Some(TagOf(env, s.mem.bytes))
    ensures var s := Run(env, Initial(env, version, bytes, ids), labels);
      var p := Run(env, Initial(env, version, bytes, ids), labels + [Snap(id)]).clients[id].poll;
      p.Done? && p.response == Artifact(s.mem.version, s.mem.bytes, TagOf(env, s.mem.bytes))
  {
    RunKeepsInv(env, version, bytes, ids, labels);
    var s := Run(env, Initial(env, version, bytes, ids), labels);
    assert GoodClient(env, s, s.clients[id]);
    RunSnoc(env, Initial(env, version, bytes, ids), labels, Snap(id));
  }

  /* ---- which request gets which answer ---- */

  /** The first two steps of a request, over every run: it is turned away exactly when the relay is not ready
      or the wait is over 60 seconds. */
  lemma TurnedAwayExactlyWhen(env: Env, s: State, id: nat)
    requires id in s.clients && s.clients[id].poll.Asked?
    ensures var p, q := s.clients[id].poll, Step(env, s, CheckReady(id)).clients[id].poll;
      && (q == Done(p.sent, Unavailable, []) <==> !s.ready)
      && (q == Done(p.sent, BadRequest, []) <==> s.ready && p.waitMs > 60000)
      && (q == Ready(p.sent, p.waitMs) <==> s.ready && p.waitMs <= 60000)
  {
  }

  /** The answer at the first snapshot, over every run: the current artifact for a request without a tag or
      with another one; for the current tag a wait if there is time for one and long polling is on, else
      a 304. */
  lemma FirstAnswerExactlyWhen(env: Env, version: nat, bytes: Bytes, ids: set<nat>, labels: seq<Label>, id: nat)
    requires var s := Run(env, Initial(env, version, bytes, ids), labels); id in s.clients && s.clients[id].poll.Ready?
    ensures var s := Run(env, Initial(env, version, bytes, ids), labels);
      var p, q, tag := s.clients[id].poll, Step(env, s, Snap(id)).clients[id].poll, TagOf(env, s.mem.bytes);
      && (p.sent != Some(tag) ==> q == Done(p.sent, Artifact(s.mem.version, s.mem.bytes, tag), [tag]))
      && (p.sent == Some(tag) && p.waitMs > 0 && env.longPoll ==> q == Looping(p.sent, tag, [tag]))
      && (p.sent == Some(tag) && (p.waitMs == 0 || !env.longPoll) ==> q == Done(p.sent, NotModified(tag), [tag]))
  {
    RunKeepsInv(env, version, bytes, ids, labels);
    var s := Run(env, Initial(env, version, bytes, ids), labels);
    assert GoodClient(env, s, s.clients[id]);
  }

  /** A woken request, over every run: the current artifact if its tag is another one, else it goes on waiting. */
  lemma WokenAnswerExactlyWhen(env: Env, version: nat, bytes: Bytes, ids: set<nat>, labels: seq<Label>, id: nat)
    requires var s := Run(env, Initial(env, version, bytes, ids), labels);
      id in s.clients && s.clients[id].poll.Waiting? && s.clients[id].poll.woken
    ensures var s := Run(env, Initial(env, version, bytes, ids), labels);
      var p, q, tag := s.clients[id].poll, Step(env, s, Wake(id)).clients[id].poll, TagOf(env, s.mem.bytes);
      && (tag != p.current ==> q == Done(p.sent, Artifact(s.mem.version, s.mem.bytes, tag), p.seen + [tag]))
      && (tag == p.current ==> q == Looping(p.sent, tag, p.seen + [tag]))
  {
    RunKeepsInv(env, version, bytes, ids, labels);
    var s := Run(env, Initial(env, version, bytes, ids), labels);
    assert GoodClient(env, s, s.clients[id]);
  }

  /** Those are all the places where an answer comes from: a step that finishes a request is its readiness
      check, its first snapshot, its wakeup or its deadline. */
  lemma AnswersComeFrom(env: Env, s: State, l: Label, id: nat)
    requires id in s.clients && id in Step(env, s, l).clients
    requires !s.clients[id].poll.Done? && Step(env, s, l).clients[id].poll.Done?
    ensures var p := s.clients[id].poll;
      || (l == CheckReady(id) && p.Asked?)
      || (l == Snap(id) && p.Ready?)
      || (l == Wake(id) && p.Waiting? && p.woken)
      || (&& l == Expire(id) && (p.Looping? || (p.Waiting? && !p.woken))
          && Step(env, s, l).clients[id].poll == Done(p.sent, NoContent(p.current), p.seen))
  {
  }

  /** What the steps of a stored publish do: the snapshot and its history entry are the artifact under the next
      version, the relay is ready, the publish acknowledged, and a waiting request is woken if and only if the
      checksum has changed. */
  lemma PublishTakesEffect(env: Env, s: State, b: Bytes, id: nat)
    requires s.publisher == Stored(b, s.mem.version + 1) && id in s.clients
    ensures var t := Step(env, Step(env, Step(env, Step(env, s, Update), Record), Notify), MarkReady);
      var v, c := s.mem.version + 1, s.clients[id];
      && t.mem == Memory(v, b, env.checksum(b)) && t.history == s.history[v := b]
      && t.ready && t.publisher == Free && t.acked == s.acked + [v]
      && id in t.clients
      && t.clients[id] == if c.poll.Waiting? && s.mem.sum != env.checksum(b)
                          then c.(poll := c.poll.(woken := true)) else c
  {
  }

  /** A client remembers exactly the 200 it takes. */
  lemma TakingRemembers(env: Env, s: State, id: nat)
    requires id in s.clients && s.clients[id].poll.Done?
    ensures var c, r := s.clients[id], s.clients[id].poll.response;
      Step(env, s, Take(id)).clients[id] ==
      if r.Artifact? then Client(Some(r.tag), r.version, Idle) else Client(c.tag, c.version, Idle)
  {
  }

  /** A relay that started with an artifact serves it to a first request; one that started without answers
      503. */
  lemma FreshRelayAnswers(env: Env, version: nat, bytes: Bytes, waitMs: nat) returns (labels: seq<Label>)
    requires waitMs <= 60000
    ensures var p := Run(env, Initial(env, version, bytes, {0}), labels).clients;
      && 0 in p && p[0].poll.Done?
      && p[0].poll.response == if bytes == [] then Unavailable else Artifact(version, bytes, TagOf(env, bytes))
  {
    var s0 := Initial(env, version, bytes, {0});
    var s1 := Step(env, s0, Ask(0, None, waitMs));
    var s2 := Step(env, s1, CheckReady(0));
    FreshRelayChecks(env, version, bytes, waitMs);
    labels := Extend(env, s0, [], s0, Ask(0, None, waitMs));
    labels := Extend(env, s0, labels, s1, CheckReady(0));
    if bytes != [] {
      FreshRelaySnaps(env, s2, waitMs);
      labels := Extend(env, s0, labels, s2, Snap(0));
    }
  }

  lemma FreshRelaySnaps(env: Env, s: State, waitMs: nat)
    requires 0 in s.clients && s.clients[0].poll == Ready(None, waitMs)
    ensures var t, tag := Step(env, s, Snap(0)).clients, env.etag(s.mem.sum);
      0 in t && t[0].poll == Done(None, Artifact(s.mem.version, s.mem.bytes, tag), [tag])
  {
  }

  lemma FreshRelayChecks(env: Env, version: nat, bytes: Bytes, waitMs: nat)
    requires waitMs <= 60000
    ensures var s0 := Initial(env, version, bytes, {0});
      var s2 := Step(env, Step(env, s0, Ask(0, None, waitMs)), CheckReady(0));
      && s2.mem == s0.mem && 0 in s2.clients
      && s2.clients[0].poll == if bytes == [] then Done(None, Unavailable, []) else Ready(None, waitMs)
  {
    assert Initial(env, version, bytes, {0}).clients[0] == Client(None, 0, Idle);
  }

  /* ---- the request loop ---- */

  /** `get_config` as the loop it is, for the snapshots it happens to read: the first one, then one
      after each wakeup; when they run out, the deadline has passed. */
  method GetConfig(env: Env, ready: bool, sent: Option<string>, waitMs: nat, snaps: seq<Memory>) returns (r: Response)
    requires snaps != []
    ensures r == Unavailable <==> !ready
    ensures r == BadRequest <==> ready && waitMs > 60000
    ensures var first, tag := snaps[0], env.etag(snaps[0].sum);
      ready && waitMs <= 60000 ==>
        && (sent != Some(tag) ==> r == Artifact(first.version, first.bytes, tag))
        && (sent == Some(tag) && (waitMs == 0 || !env.longPoll) ==> r == NotModified(tag))
        && (sent == Some(tag) && waitMs > 0 && env.longPoll ==>
              || (r == NoContent(tag) && forall i | 0 <= i < |snaps| :: env.etag(snaps[i].sum) == tag)
              || exists k | 0 < k < |snaps| ::
                   && r == Artifact(snaps[k].version, snaps[k].bytes, env.etag(snaps[k].sum))
                   && env.etag(snaps[k].sum) != tag
                   && forall i | 0 <= i < k :: env.etag(snaps[i].sum) == tag)
  {
    if !ready { return Unavailable; }
    if waitMs > MAX_WAIT_MS { return BadRequest; }
    var snapshot := snaps[0];
    var current := Tag(env, snapshot);
    if sent.Some? && sent.value != current { return Ok200(env, snapshot); }
    if sent.None? && waitMs > 0 { return Ok200(env, snapshot); }
    if waitMs > 0 && env.longPoll {
      var i := 1;
      while i < |snaps|
        invariant 1 <= i <= |snaps|
        invariant current == Tag(env, snaps[0])
        invariant forall j | 0 <= j < i :: env.etag(snaps[j].sum) == env.etag(snaps[0].sum)
      {
        snapshot := snaps[i];
        var tag := Tag(env, snapshot);
        if tag != current { return Ok200(env, snapshot); }
        current := tag;
        i := i + 1;
      }
      return NoContent(current);
    }
    if sent.Some? { return NotModified(current); }
    r := Ok200(env, snapshot);
  }
}
