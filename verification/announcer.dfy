/**
  The Home Assistant notifier's `Send`: resolve the broker credentials,
  derive names and topics from the image, create and connect the MQTT client
  on first use and announce it "online", then publish the discovery message
  and the state message.

  The MQTT transport is an oracle: `Replies` says, for one call, whether the
  connect and each publish succeed. Every operation the call attempts is
  recorded, in order, in a trace of `Event`s.
 */
module Announcer {
  import opened Segments
  import opened Naming

  /** Payload of the availability topic once connected. */
  const Online: string := "online"
  /** Last-will payload the broker publishes on the availability topic. */
  const Offline: string := "offline"
  const Icon: string := "mdi:docker"
  const Manufacturer: string := "DIUN - Docker Image Update Notifier"

  /** The notifier's configuration, with the credentials left to `Secret`s. */
  datatype Config = Config(
    scheme: string,
    host: string,
    port: int,
    clientId: string,
    qos: int,
    discoveryPrefix: string,
    component: string,
    nodeName: string)

  /** What `Send` reads from a notification entry: the image and both digests. */
  datatype Entry = Entry(image: string, digest: string, prevDigest: string)

  /** Outcome of resolving a credential from its inline value or its file. */
  datatype Secret = Resolved(value: string) | Unresolved(error: string)

  /** Outcome of one transport operation, and the error `Send` returns. */
  datatype Status = Ok | Failed(error: string)

  /** The transport oracle for one call: the reply to each operation it may attempt. */
  datatype Replies = Replies(connect: Status, online: Status, discovery: Status, state: Status)

  datatype Will = Will(topic: string, payload: string, qos: int, retained: bool)

  datatype ClientOptions = ClientOptions(
    scheme: string,
    host: string,
    port: int,
    clientId: string,
    username: string,
    password: string,
    will: Will)

  /**
    The notifier's MQTT client field: nil until the first call gets past the
    credentials. `Created` says the client object exists, not that it ever
    connected.
   */
  datatype Handle = Nil | Created(options: ClientOptions)

  datatype Device = Device(identifiers: string, name: string, manufacturer: string)

  datatype DiscoveryMessage = DiscoveryMessage(
    stateTopic: string,
    name: string,
    title: string,
    uniqueId: string,
    availabilityTopic: string,
    icon: string,
    device: Device)

  datatype Payload =
    | Text(text: string)
    | Discovery(discovery: DiscoveryMessage)
    | State(state: StateMessage)

  /** An operation attempted on the transport. */
  datatype Event = Connect | Publish(topic: string, qos: int, retained: bool, payload: Payload)

  /** An operation together with the oracle's reply to it. */
  datatype Step = Step(event: Event, status: Status)

  datatype Progress = Progress(trace: seq<Event>, error: Status)

  /** The handle after a call, the operations it attempted, and the error it returned. */
  datatype Outcome = Outcome(handle: Handle, trace: seq<Event>, error: Status)

  /** Everything `Send` derives from the image reference. */
  datatype Names = Names(repo: string, display: string, id: string, topics: Topics)

  /**
    The repository name, the display name, the sanitised repository name
    (unique id and topic segment) and the three topics of an image.
   */
  function NamesOf(cfg: Config, image: string): Names
  {
    var repo := RepoName(image);
    var id := Sanitize(repo);
    Names(repo, DisplayName(repo), id, TopicsFor(cfg.discoveryPrefix, cfg.component, cfg.nodeName, id))
  }

  /** Client options: broker, client id, credentials and a retained "offline" will. */
  function OptionsFor(cfg: Config, n: Names, username: string, password: string): ClientOptions
  {
    ClientOptions(cfg.scheme, cfg.host, cfg.port, cfg.clientId, username, password,
                  Will(n.topics.availability, Offline, QosByte(cfg.qos), true))
  }

  function OnlineEvent(cfg: Config, n: Names): Event
  {
    Publish(n.topics.availability, QosByte(cfg.qos), true, Text(Online))
  }

  function DiscoveryFor(cfg: Config, image: string, n: Names): DiscoveryMessage
  {
    DiscoveryMessage(n.topics.state, n.display, image, n.id, n.topics.availability, Icon,
                     Device(cfg.nodeName, cfg.nodeName, Manufacturer))
  }

  function DiscoveryEvent(cfg: Config, image: string, n: Names): Event
  {
    Publish(n.topics.discovery, QosByte(cfg.qos), true, Discovery(DiscoveryFor(cfg, image, n)))
  }

  function StateEvent(cfg: Config, n: Names, e: Entry): Event
  {
    Publish(n.topics.state, QosByte(cfg.qos), true, State(StateFor(e.digest, e.prevDigest)))
  }

  /**
    Runs operations in order until one fails: the reference semantics of a
    sequence of fail-fast transport calls.
   */
  function Execute(steps: seq<Step>): (p: Progress)
    ensures |p.trace| <= |steps|
    ensures p.error.Failed? ==> |p.trace| >= 1
    decreases |steps|
  {
    if steps == [] then Progress([], Ok)
    else if steps[0].status.Failed? then Progress([steps[0].event], steps[0].status)
    else
      var rest := Execute(steps[1..]);
      Progress([steps[0].event] + rest.trace, rest.error)
  }

  /**
    `p` is what fail-fast execution of `steps` reports: the events attempted
    are a prefix of the steps, every attempted step but the last succeeded,
    a failure is the last attempted step's, and success means every step
    succeeded and was attempted.
   */
  predicate FailFast(steps: seq<Step>, p: Progress)
  {
    && |p.trace| <= |steps|
    && (forall i :: 0 <= i < |p.trace| ==> p.trace[i] == steps[i].event)
    && (forall i :: 0 <= i < |p.trace| - 1 ==> steps[i].status.Ok?)
    && (p.error.Failed? ==> |p.trace| >= 1 && steps[|p.trace| - 1].status == p.error)
    && (p.error.Ok? <==> forall i :: 0 <= i < |steps| ==> steps[i].status.Ok?)
    && (p.error.Ok? ==> |p.trace| == |steps|)
  }

  /** `Execute` stops exactly at the first failing step. */
  lemma {:induction false} ExecuteIsFailFast(steps: seq<Step>)
    ensures FailFast(steps, Execute(steps))
    decreases |steps|
  {
    if steps != [] && steps[0].status.Ok? {
      var rest := steps[1..];
      ExecuteIsFailFast(rest);
      var r := Execute(rest);
      var p := Execute(steps);
      assert p.trace == [steps[0].event] + r.trace;
      assert forall i :: 1 <= i < |steps| ==> steps[i] == rest[i - 1];
      assert forall i :: 1 <= i < |p.trace| ==> p.trace[i] == r.trace[i - 1];
    }
  }

  /**
    The operations one call should perform once its names are derived,
    paired with the oracle's replies: connect and "online" only while the
    handle is nil, then discovery, then state.
   */
  function Plan(h: Handle, cfg: Config, e: Entry, n: Names, replies: Replies): seq<Step>
  {
    (if h.Nil? then [Step(Connect, replies.connect), Step(OnlineEvent(cfg, n), replies.online)] else [])
    + [Step(DiscoveryEvent(cfg, e.image, n), replies.discovery), Step(StateEvent(cfg, n, e), replies.state)]
  }

  /**
    The transport half of `Send`, once credentials are resolved and names
    derived: create and connect the client if the handle is nil and announce
    "online", then publish discovery and state, returning the first error.
   */
  function Deliver(h: Handle, cfg: Config, e: Entry, n: Names, username: string, password: string,
                   replies: Replies): (o: Outcome)
    // an existing client is reused: no connect, no "online"
    ensures h.Created? ==> o.handle == h && Connect !in o.trace && OnlineEvent(cfg, n) !in o.trace
    // a nil client is set before connecting, so it stays set even if the connect fails
    ensures h.Nil? ==> o.handle == Created(OptionsFor(cfg, n, username, password))
    ensures h.Nil? ==> |o.trace| >= 1 && o.trace[0] == Connect
    // connect is attempted at most once, and only first
    ensures forall i :: 0 < i < |o.trace| ==> o.trace[i] != Connect
    // a successful call ends by publishing discovery, then state
    ensures o.error.Ok? ==>
              && |o.trace| >= 2
              && o.trace[|o.trace| - 2] == DiscoveryEvent(cfg, e.image, n)
              && o.trace[|o.trace| - 1] == StateEvent(cfg, n, e)
  {
    if h.Nil? then
      // the handle is assigned before the connect is attempted
      var client := Created(OptionsFor(cfg, n, username, password));
      if replies.connect.Failed? then
        Outcome(client, [Connect], replies.connect)
      else if replies.online.Failed? then
        Outcome(client, [Connect, OnlineEvent(cfg, n)], replies.online)
      else if replies.discovery.Failed? then
        Outcome(client, [Connect, OnlineEvent(cfg, n), DiscoveryEvent(cfg, e.image, n)], replies.discovery)
      else
        Outcome(client, [Connect, OnlineEvent(cfg, n), DiscoveryEvent(cfg, e.image, n), StateEvent(cfg, n, e)],
                replies.state)
    else if replies.discovery.Failed? then
      Outcome(h, [DiscoveryEvent(cfg, e.image, n)], replies.discovery)
    else
      Outcome(h, [DiscoveryEvent(cfg, e.image, n), StateEvent(cfg, n, e)], replies.state)
  }

  /**
    The transport half performs exactly its plan, stopping at the first
    operation the transport fails and returning that error.
   */
  lemma DeliverFollowsPlan(h: Handle, cfg: Config, e: Entry, n: Names, username: string, password: string,
                           replies: Replies)
    ensures var o := Deliver(h, cfg, e, n, username, password, replies);
            Progress(o.trace, o.error) == Execute(Plan(h, cfg, e, n, replies))
  {
    var d := Step(DiscoveryEvent(cfg, e.image, n), replies.discovery);
    var s := Step(StateEvent(cfg, n, e), replies.state);
    if h.Nil? {
      var c := Step(Connect, replies.connect);
      var a := Step(OnlineEvent(cfg, n), replies.online);
      assert Plan(h, cfg, e, n, replies) == [c, a, d, s];
      ExecuteFour(c, a, d, s);
    } else {
      assert Plan(h, cfg, e, n, replies) == [d, s];
      ExecuteTwo(d, s);
    }
  }

  /** Running a non-empty series of operations: stop at the first if it fails, else go on with the rest. */
  lemma ExecuteCons(st: Step, rest: seq<Step>)
    ensures Execute([st] + rest)
            == if st.status.Failed? then Progress([st.event], st.status)
               else Progress([st.event] + Execute(rest).trace, Execute(rest).error)
  {
    assert ([st] + rest)[1..] == rest;
  }

  lemma ExecuteTwo(d: Step, s: Step)
    ensures Execute([d, s])
            == if d.status.Failed? then Progress([d.event], d.status)
               else Progress([d.event, s.event], s.status)
  {
    ExecuteCons(s, []);
    assert [s] + [] == [s];
    assert [s.event] + [] == [s.event];
    ExecuteCons(d, [s]);
    assert [d] + [s] == [d, s];
    assert [d.event] + [s.event] == [d.event, s.event];
  }

  lemma ExecuteFour(c: Step, a: Step, d: Step, s: Step)
    ensures Execute([c, a, d, s])
            == if c.status.Failed? then Progress([c.event], c.status)
               else if a.status.Failed? then Progress([c.event, a.event], a.status)
               else if d.status.Failed? then Progress([c.event, a.event, d.event], d.status)
               else Progress([c.event, a.event, d.event, s.event], s.status)
  {
    ExecuteTwo(d, s);
    ExecuteCons(a, [d, s]);
    assert [a] + [d, s] == [a, d, s];
    ExecuteCons(c, [a, d, s]);
    assert [c] + [a, d, s] == [c, a, d, s];
    assert [c.event] + [a.event] == [c.event, a.event];
    assert [c.event] + ([a.event] + [d.event]) == [c.event, a.event, d.event];
    assert [c.event] + ([a.event] + [d.event, s.event]) == [c.event, a.event, d.event, s.event];
  }

  /**
    One call of `Send` on a notifier whose client field is `h`, given the
    outcomes of resolving the username and the password.
   */
  function Send(h: Handle, cfg: Config, e: Entry, user: Secret, pass: Secret, replies: Replies): (o: Outcome)
    // a credential failure returns before any transport operation
    ensures user.Unresolved? ==> o == Outcome(h, [], Failed(user.error))
    ensures user.Resolved? && pass.Unresolved? ==> o == Outcome(h, [], Failed(pass.error))
    // an existing client is never replaced; a nil one is set once the credentials resolve
    ensures h.Created? ==> o.handle == h && Connect !in o.trace
    ensures h.Created? ==> OnlineEvent(cfg, NamesOf(cfg, e.image)) !in o.trace
    ensures h.Nil? ==> (o.handle.Created? <==> user.Resolved? && pass.Resolved?)
    ensures h.Nil? && o.handle.Created? ==> |o.trace| >= 1 && o.trace[0] == Connect
    ensures h.Nil? && o.handle.Created? ==> o.handle.options.will.payload == Offline && o.handle.options.will.retained
    // connect is attempted at most once, and only first
    ensures forall i :: 0 < i < |o.trace| ==> o.trace[i] != Connect
    // a successful call publishes at least discovery and state
    ensures o.error.Ok? ==> |o.trace| >= 2
  {
    if user.Unresolved? then Outcome(h, [], Failed(user.error))
    else if pass.Unresolved? then Outcome(h, [], Failed(pass.error))
    else Deliver(h, cfg, e, NamesOf(cfg, e.image), user.value, pass.value, replies)
  }

  /**
    Once the credentials resolve, a call performs exactly its plan, stopping
    at the first operation the transport fails and returning that error.
   */
  lemma SendFollowsPlan(h: Handle, cfg: Config, e: Entry, user: Secret, pass: Secret, replies: Replies)
    requires user.Resolved? && pass.Resolved?
    ensures var o := Send(h, cfg, e, user, pass, replies);
            Progress(o.trace, o.error) == Execute(Plan(h, cfg, e, NamesOf(cfg, e.image), replies))
  {
    DeliverFollowsPlan(h, cfg, e, NamesOf(cfg, e.image), user.value, pass.value, replies);
  }

  /**
    Abort on error: when some operation of a call fails, the call stops right
    after it: every earlier operation succeeded, nothing later is attempted,
    and its error is the one returned.
   */
  lemma SendStopsAtFirstFailure(h: Handle, cfg: Config, e: Entry, user: Secret, pass: Secret, replies: Replies)
    requires user.Resolved? && pass.Resolved?
    ensures var o := Send(h, cfg, e, user, pass, replies);
            FailFast(Plan(h, cfg, e, NamesOf(cfg, e.image), replies), Progress(o.trace, o.error))
  {
    var steps := Plan(h, cfg, e, NamesOf(cfg, e.image), replies);
    SendFollowsPlan(h, cfg, e, user, pass, replies);
    ExecuteIsFailFast(steps);
  }

  /** A failed discovery publish means no state publish in that call. */
  lemma FailedDiscoverySkipsState(h: Handle, cfg: Config, e: Entry, user: Secret, pass: Secret, replies: Replies)
    requires user.Resolved? && pass.Resolved?
    requires h.Created? || (replies.connect.Ok? && replies.online.Ok?)
    requires replies.discovery.Failed?
    ensures var o := Send(h, cfg, e, user, pass, replies);
            var n := NamesOf(cfg, e.image);
            && o.error == replies.discovery
            && o.trace[|o.trace| - 1] == DiscoveryEvent(cfg, e.image, n)
            && StateEvent(cfg, n, e) !in o.trace
  {
    DeliverFailedDiscovery(h, cfg, e, NamesOf(cfg, e.image), user.value, pass.value, replies);
  }

  lemma DeliverFailedDiscovery(h: Handle, cfg: Config, e: Entry, n: Names, username: string, password: string,
                               replies: Replies)
    requires h.Created? || (replies.connect.Ok? && replies.online.Ok?)
    requires replies.discovery.Failed?
    ensures var o := Deliver(h, cfg, e, n, username, password, replies);
            && o.error == replies.discovery
            && o.trace[|o.trace| - 1] == DiscoveryEvent(cfg, e.image, n)
            && StateEvent(cfg, n, e) !in o.trace
  {
  }

  /**
    The quirk of assigning the client before connecting: a failed connect
    leaves the handle set, with nothing published.
   */
  lemma FailedConnectKeepsHandle(cfg: Config, e: Entry, user: Secret, pass: Secret, replies: Replies)
    requires user.Resolved? && pass.Resolved?
    requires replies.connect.Failed?
    ensures var o := Send(Nil, cfg, e, user, pass, replies);
            o.handle.Created? && o.trace == [Connect] && o.error == replies.connect
  {
  }

  /**
    The discovery message announces the topics the notifier actually uses:
    its state topic is where the state goes, its availability topic is the
    will and "online" topic, its unique id is the sanitised repository name
    and its name the repository name's last path segment.
   */
  lemma DiscoveryMatchesTopics(cfg: Config, e: Entry, user: string, pass: string)
    ensures var n := NamesOf(cfg, e.image);
            var m := DiscoveryFor(cfg, e.image, n);
            && m.stateTopic == StateEvent(cfg, n, e).topic
            && m.availabilityTopic == OnlineEvent(cfg, n).topic
            && m.availabilityTopic == OptionsFor(cfg, n, user, pass).will.topic
            && m.uniqueId == Sanitize(RepoName(e.image))
            && m.name == DisplayName(RepoName(e.image))
  {
  }

  /**
    With slash-free configured segments, the discovery topic splits into the
    configured segments, the unique id of the discovery message, and `config`.
   */
  lemma DiscoveryIdIsTopicSegment(cfg: Config, image: string)
    requires '/' !in cfg.discoveryPrefix && '/' !in cfg.component && '/' !in cfg.nodeName
    ensures var n := NamesOf(cfg, image);
            Split(DiscoveryEvent(cfg, image, n).topic, '/')
            == [cfg.discoveryPrefix, cfg.component, cfg.nodeName, DiscoveryFor(cfg, image, n).uniqueId, "config"]
  {
    var n := NamesOf(cfg, image);
    TopicsParse(cfg.discoveryPrefix, cfg.component, cfg.nodeName, n.id);
  }

  predicate IsConnect(ev: Event)
  {
    ev.Connect?
  }

  /** The "online" announcement, on whichever availability topic. */
  predicate IsOnline(ev: Event)
  {
    ev.Publish? && ev.payload == Text(Online)
  }

  /** Number of events of a trace that satisfy `p`. */
  function Count(trace: seq<Event>, p: Event -> bool): nat
    decreases |trace|
  {
    if trace == [] then 0 else (if p(trace[0]) then 1 else 0) + Count(trace[1..], p)
  }

  lemma {:induction false} CountAppend(a: seq<Event>, b: seq<Event>, p: Event -> bool)
    ensures Count(a + b, p) == Count(a, p) + Count(b, p)
    decreases |a|
  {
    if a == [] {
      assert a + b == b;
    } else {
      assert (a + b)[1..] == a[1..] + b;
      CountAppend(a[1..], b, p);
    }
  }

  lemma {:induction false} NoneFrom(trace: seq<Event>, k: nat, p: Event -> bool)
    requires k <= |trace|
    requires forall i :: k <= i < |trace| ==> !p(trace[i])
    ensures Count(trace[k..], p) == 0
    decreases |trace| - k
  {
    if k < |trace| {
      assert trace[k..][1..] == trace[k + 1..];
      NoneFrom(trace, k + 1, p);
    }
  }

  /** A trace whose events satisfying `p` can only sit at index `k` holds at most one, at `k`. */
  lemma AtMostOneAt(trace: seq<Event>, k: nat, p: Event -> bool)
    requires forall i :: 0 <= i < |trace| && p(trace[i]) ==> i == k
    ensures Count(trace, p) <= 1
    ensures Count(trace, p) == 1 <==> k < |trace| && p(trace[k])
  {
    if k < |trace| {
      var before, after := trace[..k], trace[k + 1..];
      assert trace == before + [trace[k]] + after;
      CountAppend(before + [trace[k]], after, p);
      CountAppend(before, [trace[k]], p);
      NoneFrom(before, 0, p);
      assert before[0..] == before;
      NoneFrom(after, 0, p);
      assert after[0..] == after;
      assert [trace[k]][1..] == [];
    } else {
      NoneFrom(trace, 0, p);
      assert trace[0..] == trace;
    }
  }

  /** Discovery and state messages are never the "online" announcement. */
  lemma OnlyOnlineEventIsOnline(cfg: Config, e: Entry, n: Names)
    ensures IsOnline(OnlineEvent(cfg, n))
    ensures !IsOnline(DiscoveryEvent(cfg, e.image, n)) && !IsOnline(StateEvent(cfg, n, e))
  {
  }

  lemma DeliverOnlineOnlyAfterConnect(h: Handle, cfg: Config, e: Entry, n: Names, username: string, password: string,
                                      replies: Replies)
    ensures var o := Deliver(h, cfg, e, n, username, password, replies);
            forall i :: 0 <= i < |o.trace| && IsOnline(o.trace[i]) ==> h.Nil? && i == 1
  {
    var o := Deliver(h, cfg, e, n, username, password, replies);
    var plan := Plan(h, cfg, e, n, replies);
    DeliverFollowsPlan(h, cfg, e, n, username, password, replies);
    ExecuteIsFailFast(plan);
    OnlyOnlineEventIsOnline(cfg, e, n);
    forall i | 0 <= i < |o.trace| && IsOnline(o.trace[i])
      ensures h.Nil? && i == 1
    {
      assert o.trace[i] == plan[i].event;
    }
  }

  /** "online" is published only right after the connect of a nil handle. */
  lemma OnlineOnlyAfterConnect(h: Handle, cfg: Config, e: Entry, user: Secret, pass: Secret, replies: Replies)
    ensures var o := Send(h, cfg, e, user, pass, replies);
            forall i :: 0 <= i < |o.trace| && IsOnline(o.trace[i]) ==> h.Nil? && i == 1
  {
    if user.Resolved? && pass.Resolved? {
      DeliverOnlineOnlyAfterConnect(h, cfg, e, NamesOf(cfg, e.image), user.value, pass.value, replies);
    }
  }

  /**
    One call connects and announces "online" at most once each, and only
    when the handle was nil; either leaves the handle set.
   */
  lemma SendConnects(h: Handle, cfg: Config, e: Entry, user: Secret, pass: Secret, replies: Replies)
    ensures var o := Send(h, cfg, e, user, pass, replies);
            && Count(o.trace, IsConnect) <= (if h.Nil? then 1 else 0)
            && Count(o.trace, IsOnline) <= (if h.Nil? then 1 else 0)
            && (Count(o.trace, IsConnect) > 0 ==> o.handle.Created?)
            && (Count(o.trace, IsOnline) > 0 ==> o.handle.Created?)
  {
    var o := Send(h, cfg, e, user, pass, replies);
    OnlineOnlyAfterConnect(h, cfg, e, user, pass, replies);
    AtMostOneAt(o.trace, 0, IsConnect);
    AtMostOneAt(o.trace, 1, IsOnline);
    if h.Created? && |o.trace| > 0 {
      assert o.trace[0] in o.trace;
    }
  }

  /** One call's inputs: the entry, the credentials' outcomes and the transport's replies. */
  datatype Call = Call(entry: Entry, user: Secret, pass: Secret, replies: Replies)

  /** The handle after a series of calls, all operations attempted, and each call's error. */
  datatype Session = Session(handle: Handle, trace: seq<Event>, errors: seq<Status>)

  /** Sequential calls of `Send` on one notifier, threading its client field. */
  function Run(h: Handle, cfg: Config, calls: seq<Call>): (s: Session)
    ensures |s.errors| == |calls|
    ensures h.Created? ==> s.handle == h
    decreases |calls|
  {
    if calls == [] then Session(h, [], [])
    else
      var c := calls[0];
      var o := Send(h, cfg, c.entry, c.user, c.pass, c.replies);
      var rest := Run(o.handle, cfg, calls[1..]);
      Session(rest.handle, o.trace + rest.trace, [o.error] + rest.errors)
  }

  /**
    Connect at most once: over any series of calls a notifier attempts at
    most one connect and publishes "online" at most once — neither if its
    client already existed — whatever the transport replies, and once it
    has done either its handle is set.
   */
  lemma {:induction false} ConnectAtMostOnce(h: Handle, cfg: Config, calls: seq<Call>)
    ensures Count(Run(h, cfg, calls).trace, IsConnect) <= (if h.Nil? then 1 else 0)
    ensures Count(Run(h, cfg, calls).trace, IsOnline) <= (if h.Nil? then 1 else 0)
    ensures Count(Run(h, cfg, calls).trace, IsConnect) > 0 ==> Run(h, cfg, calls).handle.Created?
    ensures Count(Run(h, cfg, calls).trace, IsOnline) > 0 ==> Run(h, cfg, calls).handle.Created?
    decreases |calls|
  {
    if calls != [] {
      var c := calls[0];
      var o := Send(h, cfg, c.entry, c.user, c.pass, c.replies);
      var rest := Run(o.handle, cfg, calls[1..]);
      SendConnects(h, cfg, c.entry, c.user, c.pass, c.replies);
      ConnectAtMostOnce(o.handle, cfg, calls[1..]);
      CountAppend(o.trace, rest.trace, IsConnect);
      CountAppend(o.trace, rest.trace, IsOnline);
    }
  }

  /** A series of calls is its first call followed by the rest, from the handle the first leaves. */
  lemma RunCons(h: Handle, cfg: Config, c: Call, calls: seq<Call>)
    ensures var o := Send(h, cfg, c.entry, c.user, c.pass, c.replies);
            var rest := Run(o.handle, cfg, calls);
            Run(h, cfg, [c] + calls) == Session(rest.handle, o.trace + rest.trace, [o.error] + rest.errors)
  {
    assert ([c] + calls)[1..] == calls;
  }

  /** Two calls in a row: the second starts from the handle the first leaves. */
  lemma RunTwo(h: Handle, cfg: Config, c1: Call, c2: Call)
    ensures var o1 := Send(h, cfg, c1.entry, c1.user, c1.pass, c1.replies);
            var o2 := Send(o1.handle, cfg, c2.entry, c2.user, c2.pass, c2.replies);
            Run(h, cfg, [c1, c2]) == Session(o2.handle, o1.trace + o2.trace, [o1.error, o2.error])
  {
    var o1 := Send(h, cfg, c1.entry, c1.user, c1.pass, c1.replies);
    var o2 := Send(o1.handle, cfg, c2.entry, c2.user, c2.pass, c2.replies);
    RunCons(h, cfg, c1, [c2]);
    RunCons(o1.handle, cfg, c2, []);
    assert [c1] + [c2] == [c1, c2];
    assert [c2] + [] == [c2];
    assert o2.trace + [] == o2.trace;
  }

  /** A connect followed by events with no connect and no "online". */
  lemma LoneConnect(rest: seq<Event>)
    requires Connect !in rest && Count(rest, IsOnline) == 0
    ensures ([Connect] + rest)[1..] == rest
    ensures Count([Connect] + rest, IsOnline) == 0
  {
    assert ([Connect] + rest)[1..] == rest;
  }

  /**
    Display concatenations, stated over abstract events so that the proofs
    that use them need not reason about the events' contents.
   */
  lemma ConcatOneTwo(a: Event, b: Event, c: Event)
    ensures [a] + [b, c] == [a, b, c]
  {
  }

  lemma ConcatFourTwo(a: Event, b: Event, c: Event, d: Event, e: Event, f: Event)
    ensures [a, b, c, d] + [e, f] == [a, b, c, d, e, f]
  {
  }

  /** A successful first call: connect, "online", discovery, state. */
  lemma FirstCallSucceeds(cfg: Config, c: Call)
    requires c.user.Resolved? && c.pass.Resolved? && c.replies == Replies(Ok, Ok, Ok, Ok)
    ensures var o := Send(Nil, cfg, c.entry, c.user, c.pass, c.replies);
            var n := NamesOf(cfg, c.entry.image);
            && o.handle.Created?
            && o.trace == [Connect, OnlineEvent(cfg, n), DiscoveryEvent(cfg, c.entry.image, n), StateEvent(cfg, n, c.entry)]
            && o.error == Ok
  {
  }

  /** A successful call on an existing client: discovery, then state. */
  lemma LaterCallSucceeds(h: Handle, cfg: Config, c: Call)
    requires h.Created?
    requires c.user.Resolved? && c.pass.Resolved? && c.replies.discovery.Ok? && c.replies.state.Ok?
    ensures var o := Send(h, cfg, c.entry, c.user, c.pass, c.replies);
            var n := NamesOf(cfg, c.entry.image);
            && o.trace == [DiscoveryEvent(cfg, c.entry.image, n), StateEvent(cfg, n, c.entry)]
            && o.error == Ok
  {
  }

  /**
    Two successful calls on a fresh notifier: one connect and one "online",
    then discovery and state for each call, in call order.
   */
  lemma TwoCallsConnectOnce(cfg: Config, c1: Call, c2: Call)
    requires c1.user.Resolved? && c1.pass.Resolved? && c2.user.Resolved? && c2.pass.Resolved?
    requires c1.replies == Replies(Ok, Ok, Ok, Ok)
    requires c2.replies.discovery.Ok? && c2.replies.state.Ok?
    ensures Run(Nil, cfg, [c1, c2]).trace
            == [Connect, OnlineEvent(cfg, NamesOf(cfg, c1.entry.image)),
                DiscoveryEvent(cfg, c1.entry.image, NamesOf(cfg, c1.entry.image)),
                StateEvent(cfg, NamesOf(cfg, c1.entry.image), c1.entry),
                DiscoveryEvent(cfg, c2.entry.image, NamesOf(cfg, c2.entry.image)),
                StateEvent(cfg, NamesOf(cfg, c2.entry.image), c2.entry)]
    ensures Run(Nil, cfg, [c1, c2]).errors == [Ok, Ok]
  {
    var n1 := NamesOf(cfg, c1.entry.image);
    var n2 := NamesOf(cfg, c2.entry.image);
    var o1 := Send(Nil, cfg, c1.entry, c1.user, c1.pass, c1.replies);
    var o2 := Send(o1.handle, cfg, c2.entry, c2.user, c2.pass, c2.replies);
    var a1, d1, s1 := OnlineEvent(cfg, n1), DiscoveryEvent(cfg, c1.entry.image, n1), StateEvent(cfg, n1, c1.entry);
    var d2, s2 := DiscoveryEvent(cfg, c2.entry.image, n2), StateEvent(cfg, n2, c2.entry);
    assert o1.handle.Created? && o1.trace == [Connect, a1, d1, s1] && o1.error == Ok by {
      FirstCallSucceeds(cfg, c1);
    }
    assert o2.trace == [d2, s2] && o2.error == Ok by {
      LaterCallSucceeds(o1.handle, cfg, c2);
    }
    assert Run(Nil, cfg, [c1, c2]) == Session(o2.handle, o1.trace + o2.trace, [o1.error, o2.error]) by {
      RunTwo(Nil, cfg, c1, c2);
    }
    ConcatFourTwo(Connect, a1, d1, s1, d2, s2);
  }

  /**
    After a failed connect the next call neither reconnects nor announces
    "online", whatever the transport replies: the session holds the one
    failed connect and nothing else of the kind. When the second call's
    credentials resolve and its publishes succeed, it goes straight to
    discovery and state on the unconnected client.
   */
  lemma FailedConnectNeverRetried(cfg: Config, c1: Call, c2: Call)
    requires c1.user.Resolved? && c1.pass.Resolved? && c1.replies.connect.Failed?
    ensures var t := Run(Nil, cfg, [c1, c2]).trace;
            && |t| >= 1 && t[0] == Connect
            && Connect !in t[1..]
            && Count(t, IsOnline) == 0
    ensures c2.user.Resolved? && c2.pass.Resolved? && c2.replies.discovery.Ok? && c2.replies.state.Ok? ==>
              && Run(Nil, cfg, [c1, c2]).trace
                 == [Connect,
                     DiscoveryEvent(cfg, c2.entry.image, NamesOf(cfg, c2.entry.image)),
                     StateEvent(cfg, NamesOf(cfg, c2.entry.image), c2.entry)]
              && Run(Nil, cfg, [c1, c2]).errors == [c1.replies.connect, Ok]
  {
    var o1 := Send(Nil, cfg, c1.entry, c1.user, c1.pass, c1.replies);
    var o2 := Send(o1.handle, cfg, c2.entry, c2.user, c2.pass, c2.replies);
    assert Run(Nil, cfg, [c1, c2]) == Session(o2.handle, [Connect] + o2.trace, [c1.replies.connect, o2.error]) by {
      FailedConnectKeepsHandle(cfg, c1.entry, c1.user, c1.pass, c1.replies);
      RunTwo(Nil, cfg, c1, c2);
    }
    var t := Run(Nil, cfg, [c1, c2]).trace;
    assert Connect !in t[1..] && Count(t, IsOnline) == 0 by {
      SendConnects(o1.handle, cfg, c2.entry, c2.user, c2.pass, c2.replies);
      LoneConnect(o2.trace);
    }
    var n2 := NamesOf(cfg, c2.entry.image);
    var d2, s2 := DiscoveryEvent(cfg, c2.entry.image, n2), StateEvent(cfg, n2, c2.entry);
    assert c2.user.Resolved? && c2.pass.Resolved? && c2.replies.discovery.Ok? && c2.replies.state.Ok? ==>
             t == [Connect, d2, s2] && o2.error == Ok by {
      if c2.user.Resolved? && c2.pass.Resolved? && c2.replies.discovery.Ok? && c2.replies.state.Ok? {
        LaterCallSucceeds(o1.handle, cfg, c2);
        ConcatOneTwo(Connect, d2, s2);
      }
    }
  }

  /**
    The client keeps the options of the call that created it: later calls
    with other credentials do not replace it.
   */
  lemma {:induction false} HandleKeepsFirstOptions(cfg: Config, c: Call, calls: seq<Call>)
    requires c.user.Resolved? && c.pass.Resolved?
    ensures Run(Nil, cfg, [c] + calls).handle
            == Created(OptionsFor(cfg, NamesOf(cfg, c.entry.image), c.user.value, c.pass.value))
  {
    assert ([c] + calls)[1..] == calls;
  }
}
