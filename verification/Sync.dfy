/** The replica's polling protocol, with the master free to change between any two requests. */
module Sync {
  import opened Bytes
  import opened Lines
  import opened Manifests

  datatype Category = BlockedNames | AllowedNames | Upstreams

  datatype PerCategory<T> = PerCategory(block: T, allow: T, upstreams: T) {
    function Get(c: Category): T {
      match c
      case BlockedNames => block
      case AllowedNames => allow
      case Upstreams => upstreams
    }

    function Set(c: Category, v: T): PerCategory<T> {
      match c
      case BlockedNames => this.(block := v)
      case AllowedNames => this.(allow := v)
      case Upstreams => this.(upstreams := v)
    }
  }

  /**
   The world a replica runs in, by the number of requests made before: what the master holds at each moment,
   which requests succeed, which applies succeed, and in which order a manifest's entries are visited.
   */
  datatype World = World(
    master: nat -> PerCategory<Table>,
    hash: Text -> nat,
    login: nat -> bool,
    manifest: nat -> bool,
    snapshot: nat -> bool,
    apply: nat -> bool,
    order: nat -> seq<Category>)
  {
    function Held(i: nat, c: Category): Table {
      master(i).Get(c)
    }

    function HashAt(i: nat, c: Category): nat {
      hash(ManifestText(Held(i, c)))
    }

    /** Tables are well formed, ports are within 1..65535 and every manifest lists every category once. */
    ghost predicate Sound() {
      && (forall i: nat :: master(i).block.Names? && master(i).allow.Names? && master(i).upstreams.Servers?)
      && (forall i: nat, c :: Clean(Held(i, c)) && Acceptable(Held(i, c)))
      && (forall i: nat, c: Category :: c in order(i))
      && (forall i: nat, j, k :: 0 <= j < k < |order(i)| ==> order(i)[j] != order(i)[k])
    }

    ghost predicate CollisionFree() {
      forall x, y :: hash(x) == hash(y) ==> x == y
    }

    /** The master never comes back to content it has left. */
    ghost predicate NeverReturns(c: Category) {
      forall i: nat, j: nat, k: nat :: i <= j <= k && Same(Held(i, c), Held(k, c)) ==> Same(Held(j, c), Held(k, c))
    }

    ghost predicate SettledFrom(t: nat) {
      forall i: nat :: i >= t ==> master(i) == master(t)
    }

    ghost predicate AppliesSucceed() {
      forall i: nat :: apply(i)
    }

    /** Every request and apply from one moment up to another succeeds. */
    ghost predicate Smooth(from: nat, to: nat) {
      forall i :: from <= i < to ==> snapshot(i) && apply(i)
    }
  }

  /** A payload is rejected if any port is zero. */
  predicate Acceptable(t: Table) {
    t.Servers? ==> forall s :: s in t.servers ==> s.port != 0
  }

  /** Names are sent in order, servers in insertion order. */
  function Snapshot(t: Table): Table {
    match t
    case Names(names) => Names(Sort(names))
    case Servers(servers) => t
  }

  lemma SnapshotIsSame(t: Table)
    ensures Same(Snapshot(t), t) && (Acceptable(Snapshot(t)) <==> Acceptable(t))
  {
    match t
    case Names(names) =>
      SortProperties(names);
      forall x ensures x in Sort(names) <==> x in names {
        assert x in multiset(Sort(names)) <==> x in multiset(names);
      }
    case Servers(servers) =>
  }

  lemma SameIsEquivalence(a: Table, b: Table, c: Table)
    ensures Same(a, a)
    ensures Same(a, b) ==> Same(b, a)
    ensures Same(a, b) && Same(b, c) ==> Same(a, c)
  {
  }

  // ----- one category of one poll -----

  /** What a snapshot request made at a moment brings back. */
  function Reply(w: World, i: nat, c: Category): Option<Table> {
    if w.snapshot(i) then Some(Snapshot(w.Held(i, c))) else None
  }

  datatype Mirror = Mirror(known: map<Category, nat>, tables: PerCategory<Table>)

  /** What one manifest entry does: nothing if the hash is known or the fetch fails; else the hash is recorded. */
  function Visited(m: Mirror, c: Category, h: nat, reply: Option<Table>, applied: bool): Mirror {
    if c in m.known && m.known[c] == h then m
    else match reply
      case None => m
      case Some(t) => Mirror(m.known[c := h], if applied then m.tables.Set(c, t) else m.tables)
  }

  /**
   The recorded hash is the manifest's whatever the snapshot held and whether or not it was applied, so
   an entry left with other data than its hash names stays so for as long as the master shows that hash.
   */
  lemma WrongDataSticks(m: Mirror, c: Category, held: Table, fetched: Table, applied: bool, hash: Text -> nat,
                        later: Option<Table>, laterApplied: bool)
    requires !(c in m.known && m.known[c] == hash(ManifestText(held)))
    requires if applied then !Same(fetched, held) else !Same(m.tables.Get(c), held)
    ensures var stuck := Visited(m, c, hash(ManifestText(held)), Some(fetched), applied);
            && !Same(stuck.tables.Get(c), held)
            && Visited(stuck, c, hash(ManifestText(held)), later, laterApplied) == stuck
  {
  }

  // ----- the protocol on values -----

  /** What a replica asks its master; a manifest is read one hash at a time. */
  datatype Request = LoginRequest | ManifestRead(c: Category) | SnapshotRequest(c: Category)

  /** A replica, the number of requests made so far, and those it made. */
  datatype Moment = Moment(m: Mirror, now: nat, asked: seq<Request>)

  /** From one moment to another requests were added, each counted. */
  ghost predicate Later(s: Moment, s': Moment) {
    s.now <= s'.now && s.asked <= s'.asked && |s'.asked| - |s.asked| == s'.now - s.now
  }

  function VisitOf(w: World, s: Moment, c: Category, h: nat): (r: Moment)
    ensures Later(s, r)
  {
    if c in s.m.known && s.m.known[c] == h then s
    else Moment(Visited(s.m, c, h, Reply(w, s.now, c), w.apply(s.now)), s.now + 1, s.asked + [SnapshotRequest(c)])
  }

  datatype Polled = Polled(ok: bool, after: Moment)

  /** The entries of a manifest in order, until an abort. */
  function VisitsOf(w: World, s: Moment, hashes: PerCategory<nat>, order: seq<Category>, abort: nat): (p: Polled)
    ensures Later(s, p.after) && p.after.now <= s.now + |order|
    ensures abort >= s.now + |order| ==> p.ok
    ensures p.ok || p.after.now >= abort
    decreases |order|
  {
    if order == [] then Polled(true, s)
    else if s.now >= abort then Polled(false, s)
    else VisitsOf(w, VisitOf(w, s, order[0], hashes.Get(order[0])), hashes, order[1..], abort)
  }

  /** The hashes a manifest fetch brings back, one query at a time. */
  function ManifestAt(w: World, i: nat): PerCategory<nat> {
    PerCategory(w.HashAt(i + 1, BlockedNames), w.HashAt(i + 2, AllowedNames), w.HashAt(i, Upstreams))
  }

  lemma VisitsStep(w: World, s: Moment, hashes: PerCategory<nat>, order: seq<Category>, i: nat, abort: nat)
    requires i < |order|
    ensures VisitsOf(w, s, hashes, order[i..], abort) ==
              if s.now >= abort then Polled(false, s)
              else VisitsOf(w, VisitOf(w, s, order[i], hashes.Get(order[i])), hashes, order[i + 1..], abort)
  {
    assert order[i..][1..] == order[i + 1..];
  }

  /** A manifest fetch that fails. */
  function FailedFetch(s: Moment): Moment {
    Moment(s.m, s.now + 1, s.asked + [ManifestRead(Upstreams)])
  }

  /** A manifest fetch, hash by hash. */
  function Fetched(s: Moment): Moment {
    Moment(s.m, s.now + 3,
           s.asked + [ManifestRead(Upstreams), ManifestRead(BlockedNames), ManifestRead(AllowedNames)])
  }

  function LoginOf(s: Moment): Moment {
    Moment(s.m.(known := map[]), s.now + 1, s.asked + [LoginRequest])
  }

  function PollOf(w: World, s: Moment, abort: nat): (p: Polled)
    ensures Later(s, p.after) && s.now < p.after.now <= s.now + 3 + |w.order(s.now)|
    ensures p.ok ==> w.manifest(s.now)
    ensures w.manifest(s.now) ==> p.ok || p.after.now >= abort
    ensures w.manifest(s.now) && abort >= s.now + 3 + |w.order(s.now)| ==> p.ok
  {
    if !w.manifest(s.now) then Polled(false, FailedFetch(s))
    else VisitsOf(w, Fetched(s), ManifestAt(w, s.now), w.order(s.now), abort)
  }

  /** Logging in, which forgets the known hashes, and polling until a poll fails, over and over until an abort. */
  function RunOf(w: World, s: Moment, loggedIn: bool, abort: nat): (r: Moment)
    ensures Later(s, r) && r.now >= abort
    decreases abort - s.now
  {
    if s.now >= abort then s
    else if !loggedIn then RunOf(w, LoginOf(s), w.login(s.now), abort)
    else RunOf(w, PollOf(w, s, abort).after, PollOf(w, s, abort).ok, abort)
  }

  // ----- one poll of one category -----

  ghost predicate Untouched(before: Mirror, after: Mirror, c: Category) {
    && (c in before.known <==> c in after.known)
    && (c in before.known ==> before.known[c] == after.known[c])
    && before.tables.Get(c) == after.tables.Get(c)
  }

  /**
   What a whole poll did to one category, the manifest's hash read at one moment and the snapshot requested
   at a later one: nothing if the hash was known or the request failed; else the hash is recorded, and the
   data is the master's at the moment of the request unless the apply failed.
   */
  ghost predicate PolledAt(w: World, before: Mirror, after: Mirror, c: Category, at: nat, fetched: nat, now: nat) {
    if c in before.known && before.known[c] == w.HashAt(at, c) then Untouched(before, after, c)
    else
      && at <= fetched < now
      && if !w.snapshot(fetched) then Untouched(before, after, c)
         else
           && c in after.known && after.known[c] == w.HashAt(at, c)
           && if w.apply(fetched) then Same(after.tables.Get(c), w.Held(fetched, c))
              else after.tables.Get(c) == before.tables.Get(c)
  }

  /** Whether the category ends right: exactly if its hash was not known yet, or its data was right already. */
  ghost predicate EndsRightIff(w: World, t: nat, before: Mirror, after: Mirror, c: Category) {
    && (c in before.known && before.known[c] == w.HashAt(t, c) ==> after.tables.Get(c) == before.tables.Get(c))
    && (Same(after.tables.Get(c), w.Held(t, c)) <==>
        !(c in before.known && before.known[c] == w.HashAt(t, c)) || Same(before.tables.Get(c), w.Held(t, c)))
  }

  /** Once the master has settled, a poll whose requests all succeed ends right in just these cases. */
  lemma SettledPoll(w: World, t: nat, before: Mirror, after: Mirror, c: Category, at: nat, fetched: nat, now: nat)
    requires PolledAt(w, before, after, c, at, fetched, now) && t <= at
    requires w.SettledFrom(t) && w.Smooth(t, now)
    ensures EndsRightIff(w, t, before, after, c)
  {
    assert w.master(at) == w.master(t);
    if !(c in before.known && before.known[c] == w.HashAt(at, c)) {
      assert w.master(fetched) == w.master(t);
    }
  }

  lemma {:induction false} VisitsLeave(w: World, s: Moment, hashes: PerCategory<nat>, order: seq<Category>,
                                       abort: nat, c: Category)
    requires c !in order
    ensures Untouched(s.m, VisitsOf(w, s, hashes, order, abort).after.m, c)
    decreases |order|
  {
    if order == [] || s.now >= abort {
    } else {
      var next := VisitOf(w, s, order[0], hashes.Get(order[0]));
      VisitsLeave(w, next, hashes, order[1..], abort, c);
    }
  }

  lemma VisitDoes(w: World, s: Moment, c: Category, at: nat)
    requires at <= s.now
    ensures var next := VisitOf(w, s, c, w.HashAt(at, c)); PolledAt(w, s.m, next.m, c, at, s.now, s.now + 1)
  {
    SnapshotIsSame(w.Held(s.now, c));
  }

  /** Visiting a manifest's entries does to each of them what its one visit does. */
  lemma {:induction false} VisitsDo(w: World, s: Moment, hashes: PerCategory<nat>, order: seq<Category>,
                                    abort: nat, c: Category, at: nat) returns (fetched: nat)
    requires c in order && forall j, k :: 0 <= j < k < |order| ==> order[j] != order[k]
    requires at <= s.now && hashes.Get(c) == w.HashAt(at, c) && VisitsOf(w, s, hashes, order, abort).ok
    ensures var p := VisitsOf(w, s, hashes, order, abort);
            fetched >= s.now && PolledAt(w, s.m, p.after.m, c, at, fetched, p.after.now)
    decreases |order|
  {
    var next := VisitOf(w, s, order[0], hashes.Get(order[0]));
    if order[0] == c {
      assert c !in order[1..];
      VisitDoes(w, s, c, at);
      VisitsLeave(w, next, hashes, order[1..], abort, c);
      fetched := s.now;
    } else {
      fetched := VisitsDo(w, next, hashes, order[1..], abort, c, at);
    }
  }

  /**
   A complete poll reads every hash before it requests any snapshot, and does to every category what
   `PolledAt` says for those two moments.
   */
  ghost predicate Did(w: World, s: Moment, after: Moment, c: Category) {
    exists at: nat, fetched: nat ::
      s.now <= at < s.now + 3 <= fetched && PolledAt(w, s.m, after.m, c, at, fetched, after.now)
  }

  lemma PollDoes(w: World, s: Moment, abort: nat, c: Category)
    requires w.Sound() && PollOf(w, s, abort).ok
    ensures Did(w, s, PollOf(w, s, abort).after, c)
    ensures w.SettledFrom(s.now) && w.Smooth(s.now, PollOf(w, s, abort).after.now) ==>
              EndsRightIff(w, s.now, s.m, PollOf(w, s, abort).after.m, c)
  {
    var at := match c case BlockedNames => s.now + 1 case AllowedNames => s.now + 2 case Upstreams => s.now;
    var after := PollOf(w, s, abort).after;
    var fetched := VisitsDo(w, Fetched(s), ManifestAt(w, s.now), w.order(s.now), abort, c, at);
    assert PolledAt(w, s.m, after.m, c, at, fetched, after.now);
    if w.SettledFrom(s.now) && w.Smooth(s.now, after.now) {
      SettledPoll(w, s.now, s.m, after.m, c, at, fetched, after.now);
    }
  }

  lemma CompletePoll(w: World, s: Moment, abort: nat)
    requires w.Sound() && PollOf(w, s, abort).ok
    ensures var after := PollOf(w, s, abort).after;
            && (forall c: Category :: Did(w, s, after, c))
            && (w.SettledFrom(s.now) && w.Smooth(s.now, after.now) ==>
                  forall c: Category :: EndsRightIff(w, s.now, s.m, after.m, c))
  {
    forall c: Category {
      PollDoes(w, s, abort, c);
    }
  }

  // ----- which request follows which -----

  /** Whether one request may follow the requests made, the last of them with this number. */
  predicate MayFollow(w: World, asked: seq<Request>, next: Request)
    requires asked != []
  {
    match asked[|asked| - 1]
    case LoginRequest => next == if w.login(|asked| - 1) then ManifestRead(Upstreams) else LoginRequest
    case ManifestRead(Upstreams) =>
      next == if w.manifest(|asked| - 1) then ManifestRead(BlockedNames) else LoginRequest
    case ManifestRead(BlockedNames) => next == ManifestRead(AllowedNames)
    case ManifestRead(AllowedNames) => next.SnapshotRequest? || next == ManifestRead(Upstreams)
    case SnapshotRequest(_) => next.SnapshotRequest? || next == ManifestRead(Upstreams)
  }

  predicate InTurn(w: World, asked: seq<Request>, i: nat)
    requires 0 < i < |asked|
  {
    MayFollow(w, asked[..i], asked[i])
  }

  /**
   From one request on: a login first; after a login or manifest that failed nothing but a login, after one
   that succeeded the manifest's three hashes, and after these snapshots and then the next manifest.
   */
  ghost predicate Protocol(w: World, asked: seq<Request>, from: nat) {
    && (from < |asked| ==> asked[from] == LoginRequest)
    && forall i :: from < i < |asked| ==> InTurn(w, asked, i)
  }

  /** The next request belongs to a poll, or is a login. */
  predicate Expects(w: World, asked: seq<Request>, from: nat, polling: bool) {
    if |asked| <= from then !polling && |asked| == from
    else MayFollow(w, asked, if polling then ManifestRead(Upstreams) else LoginRequest)
  }

  lemma ProtocolGrows(w: World, asked: seq<Request>, from: nat, next: Request)
    requires Protocol(w, asked, from) && from <= |asked|
    requires if |asked| == from then next == LoginRequest else MayFollow(w, asked, next)
    ensures Protocol(w, asked + [next], from)
  {
    var asked' := asked + [next];
    forall i | from < i < |asked'| ensures InTurn(w, asked', i) {
      assert asked'[..i] == asked[..i];
      if i < |asked| { assert InTurn(w, asked, i); } else { assert asked[..i] == asked; }
    }
  }

  lemma FetchKeepsProtocol(w: World, s: Moment, from: nat)
    requires Protocol(w, s.asked, from) && Expects(w, s.asked, from, true) && |s.asked| == s.now
    ensures w.manifest(s.now) ==>
              Protocol(w, Fetched(s).asked, from) && Expects(w, Fetched(s).asked, from, true)
    ensures !w.manifest(s.now) ==>
              Protocol(w, FailedFetch(s).asked, from) && Expects(w, FailedFetch(s).asked, from, false)
  {
    var one := s.asked + [ManifestRead(Upstreams)];
    ProtocolGrows(w, s.asked, from, ManifestRead(Upstreams));
    if w.manifest(s.now) {
      ProtocolGrows(w, one, from, ManifestRead(BlockedNames));
      var two := one + [ManifestRead(BlockedNames)];
      ProtocolGrows(w, two, from, ManifestRead(AllowedNames));
      assert Fetched(s).asked == two + [ManifestRead(AllowedNames)];
    }
  }

  predicate ReadyForSnapshots(asked: seq<Request>) {
    asked != [] && (asked[|asked| - 1].SnapshotRequest? || asked[|asked| - 1] == ManifestRead(AllowedNames))
  }

  lemma {:induction false} VisitsKeepProtocol(w: World, s: Moment, hashes: PerCategory<nat>, order: seq<Category>,
                                              abort: nat, from: nat)
    requires Protocol(w, s.asked, from) && from < |s.asked| && ReadyForSnapshots(s.asked)
    ensures var asked := VisitsOf(w, s, hashes, order, abort).after.asked;
            Protocol(w, asked, from) && ReadyForSnapshots(asked)
    decreases |order|
  {
    if order == [] || s.now >= abort {
    } else {
      var c := order[0];
      ProtocolGrows(w, s.asked, from, SnapshotRequest(c));
      VisitsKeepProtocol(w, VisitOf(w, s, c, hashes.Get(c)), hashes, order[1..], abort, from);
    }
  }

  /** Every run keeps to the protocol. */
  lemma {:induction false} RunKeepsProtocol(w: World, s: Moment, loggedIn: bool, abort: nat, from: nat)
    requires Protocol(w, s.asked, from) && Expects(w, s.asked, from, loggedIn) && from <= |s.asked| == s.now
    ensures Protocol(w, RunOf(w, s, loggedIn, abort).asked, from)
    decreases abort - s.now
  {
    if s.now >= abort {
    } else if !loggedIn {
      ProtocolGrows(w, s.asked, from, LoginRequest);
      RunKeepsProtocol(w, LoginOf(s), w.login(s.now), abort, from);
    } else {
      FetchKeepsProtocol(w, s, from);
      var p := PollOf(w, s, abort);
      if w.manifest(s.now) {
        VisitsKeepProtocol(w, Fetched(s), ManifestAt(w, s.now), w.order(s.now), abort, from);
      }
      if p.after.now < abort {
        RunKeepsProtocol(w, p.after, p.ok, abort, from);
      }
    }
  }

  // ----- a login mends everything -----

  ghost predicate IsRight(w: World, t: nat, m: Mirror, c: Category) {
    Same(m.tables.Get(c), w.Held(t, c))
  }

  lemma VisitStaysRight(w: World, t: nat, s: Moment, c: Category, visited: Category, h: nat)
    requires w.SettledFrom(t) && t <= s.now && IsRight(w, t, s.m, c)
    ensures IsRight(w, t, VisitOf(w, s, visited, h).m, c)
  {
    SnapshotIsSame(w.Held(s.now, c));
    assert w.master(s.now) == w.master(t);
  }

  lemma {:induction false} VisitsStayRight(w: World, t: nat, s: Moment, c: Category, hashes: PerCategory<nat>,
                                           order: seq<Category>, abort: nat)
    requires w.SettledFrom(t) && t <= s.now && IsRight(w, t, s.m, c)
    ensures IsRight(w, t, VisitsOf(w, s, hashes, order, abort).after.m, c)
    decreases |order|
  {
    if order == [] || s.now >= abort {
    } else {
      VisitStaysRight(w, t, s, c, order[0], hashes.Get(order[0]));
      VisitsStayRight(w, t, VisitOf(w, s, order[0], hashes.Get(order[0])), c, hashes, order[1..], abort);
    }
  }

  /** Once the master has settled, a category that is right stays so in every run, whatever fails. */
  lemma {:induction false} RunStaysRight(w: World, t: nat, s: Moment, loggedIn: bool, c: Category, abort: nat)
    requires w.SettledFrom(t) && t <= s.now && IsRight(w, t, s.m, c)
    ensures IsRight(w, t, RunOf(w, s, loggedIn, abort).m, c)
    decreases abort - s.now
  {
    if s.now >= abort {
    } else if !loggedIn {
      RunStaysRight(w, t, LoginOf(s), w.login(s.now), c, abort);
    } else {
      if w.manifest(s.now) {
        VisitsStayRight(w, t, Fetched(s), c, ManifestAt(w, s.now), w.order(s.now), abort);
      }
      RunStaysRight(w, t, PollOf(w, s, abort).after, PollOf(w, s, abort).ok, c, abort);
    }
  }

  lemma {:induction false} VisitsAskSnapshots(w: World, s: Moment, hashes: PerCategory<nat>, order: seq<Category>,
                                              abort: nat, g: nat)
    requires var asked := VisitsOf(w, s, hashes, order, abort).after.asked;
             |s.asked| <= g < |asked|
    ensures VisitsOf(w, s, hashes, order, abort).after.asked[g].SnapshotRequest?
    decreases |order|
  {
    if order == [] || s.now >= abort {
    } else {
      var next := VisitOf(w, s, order[0], hashes.Get(order[0]));
      var end := VisitsOf(w, next, hashes, order[1..], abort).after;
      if g < |next.asked| {
        assert end.asked[g] == next.asked[g];
      } else {
        VisitsAskSnapshots(w, next, hashes, order[1..], abort, g);
      }
    }
  }

  /** A poll never logs in. */
  lemma PollAsksNoLogin(w: World, s: Moment, abort: nat, g: nat)
    requires |s.asked| <= g < |PollOf(w, s, abort).after.asked|
    ensures PollOf(w, s, abort).after.asked[g] != LoginRequest
  {
    if w.manifest(s.now) {
      var end := PollOf(w, s, abort).after;
      if g < |Fetched(s).asked| {
        assert end.asked[g] == Fetched(s).asked[g];
      } else {
        VisitsAskSnapshots(w, Fetched(s), ManifestAt(w, s.now), w.order(s.now), abort, g);
      }
    }
  }

  lemma LoginIsLater(w: World, s: Moment, abort: nat, g: nat, asked: seq<Request>)
    requires PollOf(w, s, abort).after.asked <= asked && |s.asked| <= g < |asked| && asked[g] == LoginRequest
    ensures g >= |PollOf(w, s, abort).after.asked|
  {
    var polled := PollOf(w, s, abort).after.asked;
    if g < |polled| {
      PollAsksNoLogin(w, s, abort, g);
    }
    assert forall i :: 0 <= i < |polled| ==> polled[i] == asked[i];
  }

  /** The first poll after the login with this number gets all its replies, before any abort. */
  ghost predicate PollGoesThrough(w: World, g: nat, abort: nat) {
    && w.manifest(g + 1) && w.Smooth(g + 1, g + 4 + |w.order(g + 1)|)
    && abort >= g + 4 + |w.order(g + 1)|
  }

  /** The poll after a login makes every category right, since no hash is known to it. */
  lemma LoginMends(w: World, t: nat, s: Moment, c: Category, abort: nat)
    requires w.Sound() && w.SettledFrom(t) && t <= s.now && PollGoesThrough(w, s.now, abort)
    ensures IsRight(w, t, RunOf(w, LoginOf(s), true, abort).m, c)
  {
    var l := LoginOf(s);
    var p := PollOf(w, l, abort);
    assert w.master(l.now) == w.master(t);
    PollDoes(w, l, abort, c);
    assert EndsRightIff(w, l.now, l.m, p.after.m, c);
    RunStaysRight(w, t, p.after, p.ok, c, abort);
  }

  /**
   Whatever was wrong or stuck before: if some request of a run is a login that succeeds after the master
   has settled, and the poll after it goes through, then the run ends with every category equal to the
   master's, whatever fails after that.
   */
  lemma {:induction false} RunRecovers(w: World, t: nat, s: Moment, loggedIn: bool, c: Category, abort: nat, g: nat)
    requires w.Sound() && w.SettledFrom(t) && t <= g && PollGoesThrough(w, g, abort)
    requires s.now == |s.asked| <= g < |RunOf(w, s, loggedIn, abort).asked|
    requires RunOf(w, s, loggedIn, abort).asked[g] == LoginRequest && w.login(g)
    ensures IsRight(w, t, RunOf(w, s, loggedIn, abort).m, c)
    decreases abort - s.now
  {
    if s.now >= abort {
      assert false;
    } else if !loggedIn {
      if g == s.now {
        LoginMends(w, t, s, c, abort);
      } else {
        RunRecovers(w, t, LoginOf(s), w.login(s.now), c, abort, g);
      }
    } else {
      var p := PollOf(w, s, abort);
      LoginIsLater(w, s, abort, g, RunOf(w, p.after, p.ok, abort).asked);
      RunRecovers(w, t, p.after, p.ok, c, abort, g);
    }
  }

  /**
   If no hash collides, the master never returns to earlier content and the last apply succeeded, a known
   hash equal to a later manifest hash means that the data equals the master's at that later moment.
   */
  lemma KnownHashMeansSameData(w: World, c: Category, read: nat, got: nat, now: nat, data: Table)
    requires w.Sound() && w.CollisionFree() && w.NeverReturns(c)
    requires read <= got <= now && Same(data, w.Held(got, c))
    requires w.HashAt(read, c) == w.HashAt(now, c)
    ensures Same(data, w.Held(now, c))
  {
    assert w.Held(read, c).Names? <==> w.Held(now, c).Names? by {
      match c
      case BlockedNames =>
      case AllowedNames =>
      case Upstreams =>
    }
    assert Clean(w.Held(read, c)) && Clean(w.Held(now, c));
    TextDeterminesTable(w.Held(read, c), w.Held(now, c));
    assert Same(w.Held(got, c), w.Held(now, c));
    SameIsEquivalence(data, w.Held(got, c), w.Held(now, c));
  }

  /** Request `g` of the run is a login that succeeds, and the poll after it goes through. */
  ghost predicate Recovers(w: World, asked: seq<Request>, from: nat, g: nat, abort: nat) {
    from <= g < |asked| && asked[g] == LoginRequest && w.login(g) && PollGoesThrough(w, g, abort)
  }

  /** What holds of every run from a replica that knows no hash yet. */
  lemma RunEnds(w: World, s: Moment, abort: nat)
    requires w.Sound() && |s.asked| == s.now
    ensures var r := RunOf(w, s, false, abort);
            && Protocol(w, r.asked, s.now)
            && forall t, g :: w.SettledFrom(t) && t <= g && Recovers(w, r.asked, s.now, g, abort) ==>
                 forall c: Category :: IsRight(w, t, r.m, c)
  {
    var r := RunOf(w, s, false, abort);
    RunKeepsProtocol(w, s, false, abort, s.now);
    forall t, g, c: Category | w.SettledFrom(t) && t <= g && Recovers(w, r.asked, s.now, g, abort)
      ensures IsRight(w, t, r.m, c)
    {
      RunRecovers(w, t, s, false, c, abort, g);
    }
  }

  class Replica {
    var known: map<Category, nat>
    var tables: PerCategory<Table>
    var now: nat
    ghost var asked: seq<Request>
    ghost var read: PerCategory<nat>
    ghost var got: PerCategory<nat>
    ghost var applied: PerCategory<bool>

    constructor (tables: PerCategory<Table>)
      ensures known == map[] && this.tables == tables && now == 0 && asked == []
    {
      known, this.tables, now, asked := map[], tables, 0, [];
      read, got, applied := PerCategory(0, 0, 0), PerCategory(0, 0, 0), PerCategory(false, false, false);
    }

    function State(): Mirror
      reads this
    {
      Mirror(known, tables)
    }

    ghost function Here(): Moment
      reads this
    {
      Moment(State(), now, asked)
    }

    /** Where a known hash and the data beside it came from: the data is the master's at or after the hash. */
    ghost predicate Tracks(w: World, c: Category)
      reads this
    {
      c in known ==>
        && read.Get(c) <= got.Get(c) < now
        && known[c] == w.HashAt(read.Get(c), c)
        && (applied.Get(c) ==> Same(tables.Get(c), w.Held(got.Get(c), c)))
        && (w.AppliesSucceed() ==> applied.Get(c))
    }

    ghost predicate TracksAll(w: World)
      reads this
    {
      var all := Tracks(w, BlockedNames) && Tracks(w, AllowedNames) && Tracks(w, Upstreams);
      all
    }

    /** In every state of a run, a known hash that is the master's current one means current data. */
    lemma InSync(w: World, c: Category)
      requires w.Sound() && w.CollisionFree() && w.NeverReturns(c) && w.AppliesSucceed()
      requires TracksAll(w) && c in known && known[c] == w.HashAt(now, c)
      ensures Same(tables.Get(c), w.Held(now, c))
    {
      assert Tracks(w, c);
      KnownHashMeansSameData(w, c, read.Get(c), got.Get(c), now, tables.Get(c));
    }

    /** Every attempt to log in forgets the known hashes. */
    method Login(w: World) returns (ok: bool)
      modifies this
      ensures Here() == LoginOf(old(Here())) && ok == w.login(old(now))
      ensures TracksAll(w)
    {
      known := map[];
      ok := w.login(now);
      now, asked := now + 1, asked + [LoginRequest];
    }

    /** The hashes are read one query at a time, so each belongs to its own moment. */
    method FetchManifest(w: World) returns (hashes: Option<PerCategory<nat>>, ghost at: PerCategory<nat>)
      requires TracksAll(w)
      modifies `now, `asked
      ensures Here() == if w.manifest(old(now)) then Fetched(old(Here())) else FailedFetch(old(Here()))
      ensures TracksAll(w)
      ensures hashes.Some? <==> w.manifest(old(now))
      ensures hashes.Some? ==> hashes.value == ManifestAt(w, old(now))
      ensures hashes.Some? ==> forall c: Category ::
                old(now) <= at.Get(c) < now && hashes.value.Get(c) == w.HashAt(at.Get(c), c)
    {
      at := PerCategory(now, now, now);
      if !w.manifest(now) {
        now, asked := now + 1, asked + [ManifestRead(Upstreams)];
        return None, at;
      }
      var upstreams := w.HashAt(now, Upstreams);
      var block := w.HashAt(now + 1, BlockedNames);
      var allow := w.HashAt(now + 2, AllowedNames);
      hashes, at := Some(PerCategory(block, allow, upstreams)), PerCategory(now + 1, now + 2, now);
      now := now + 3;
      asked := asked + [ManifestRead(Upstreams), ManifestRead(BlockedNames), ManifestRead(AllowedNames)];
    }

    /** One manifest entry: fetch the snapshot if the hash is new, apply it, and record the hash. */
    method Visit(w: World, c: Category, h: nat, ghost at: nat)
      requires w.Sound() && TracksAll(w) && at < now && h == w.HashAt(at, c)
      modifies this
      ensures TracksAll(w)
      ensures Here() == VisitOf(w, old(Here()), c, h)
    {
      if c in known && known[c] == h {
        return;
      }
      if !w.snapshot(now) {
        now, asked := now + 1, asked + [SnapshotRequest(c)];
        return;
      }
      var payload, ok := Snapshot(w.Held(now, c)), w.apply(now);
      SnapshotIsSame(w.Held(now, c));
      ok := ok && Acceptable(payload);
      now, asked := now + 1, asked + [SnapshotRequest(c)];
      Record(w, c, h, at, now - 1, payload, ok);
    }

    /** Applies a payload unless that fails, and records the hash either way. */
    method Record(w: World, c: Category, h: nat, ghost at: nat, ghost moment: nat, payload: Table, ok: bool)
      requires TracksAll(w) && at <= moment < now && h == w.HashAt(at, c)
      requires Same(payload, w.Held(moment, c)) && (w.AppliesSucceed() ==> ok)
      modifies `known, `tables, `read, `got, `applied
      ensures TracksAll(w)
      ensures State() == Mirror(old(known)[c := h], if ok then old(tables).Set(c, payload) else old(tables))
    {
      if ok {
        tables := tables.Set(c, payload);
      }
      known := known[c := h];
      read, got, applied := read.Set(c, at), got.Set(c, moment), applied.Set(c, ok);
      forall x: Category ensures Tracks(w, x) {
        assert x != c ==> old(Tracks(w, x)) && tables.Get(x) == old(tables).Get(x);
      }
    }

    /** The entries of a manifest in order, until an abort. */
    method VisitAll(w: World, hashes: PerCategory<nat>, order: seq<Category>, abort: nat, ghost at: PerCategory<nat>)
      returns (ok: bool)
      requires w.Sound() && TracksAll(w)
      requires forall c: Category :: at.Get(c) < now && hashes.Get(c) == w.HashAt(at.Get(c), c)
      modifies this
      ensures TracksAll(w) && Polled(ok, Here()) == VisitsOf(w, old(Here()), hashes, order, abort)
    {
      ghost var start := Here();
      for i := 0 to |order|
        invariant TracksAll(w) && now >= start.now
        invariant VisitsOf(w, Here(), hashes, order[i..], abort) == VisitsOf(w, start, hashes, order, abort)
      {
        VisitsStep(w, Here(), hashes, order, i, abort);
        if now >= abort {
          return false;
        }
        var c := order[i];
        Visit(w, c, hashes.Get(c), at.Get(c));
      }
      ok := true;
    }

    /** One poll, which an abort may cut short at any request. */
    method Poll(w: World, abort: nat) returns (ok: bool)
      requires w.Sound() && TracksAll(w)
      modifies this
      ensures TracksAll(w) && old(now) < now
      ensures Polled(ok, Here()) == PollOf(w, old(Here()), abort)
      ensures ok ==> forall c: Category :: Did(w, old(Here()), Here(), c)
      ensures ok && w.SettledFrom(old(now)) && w.Smooth(old(now), now) ==>
                forall c: Category :: EndsRightIff(w, old(now), old(State()), State(), c)
    {
      ghost var start := Here();
      var order := w.order(now);
      var hashes; ghost var at;
      hashes, at := FetchManifest(w);
      if hashes.None? {
        return false;
      }
      assert Here() == Fetched(start);
      ok := VisitAll(w, hashes.value, order, abort, at);
      if ok {
        CompletePoll(w, start, abort);
      }
    }

    /**
     Runs until it is aborted at any request, through any login failures, manifest failures, snapshot failures
     and failed applies.
     */
    method Run(w: World, abort: nat)
      requires w.Sound() && |asked| == now
      modifies this
      ensures TracksAll(w) && |asked| == now >= abort && old(asked) <= asked && Protocol(w, asked, old(now))
      ensures forall t, g :: w.SettledFrom(t) && t <= g && Recovers(w, asked, old(now), g, abort) ==>
                forall c: Category :: IsRight(w, t, State(), c)
      ensures Here() == RunOf(w, Moment(Mirror(map[], old(tables)), old(now), old(asked)), false, abort)
    {
      known := map[];
      ghost var start, whole := Here(), RunOf(w, Here(), false, abort);
      RunEnds(w, start, abort);
      while now < abort
        invariant TracksAll(w)
        invariant RunOf(w, Here(), false, abort) == whole
        decreases abort - now
      {
        var ok := Login(w);
        while ok && now < abort
          invariant TracksAll(w)
          invariant RunOf(w, Here(), ok, abort) == whole
          decreases abort - now
        {
          ok := Poll(w, abort);
        }
      }
    }

    /**
     Whatever happened before, once the master settles one complete poll makes the replica equal to it, and
     the next poll is complete unless the manifest cannot be fetched.
     */
    method Converge(w: World, abort: nat) returns (complete: bool)
      requires w.Sound() && w.CollisionFree() && w.AppliesSucceed()
      requires |asked| == now && forall c: Category :: w.NeverReturns(c)
      requires w.SettledFrom(abort) && forall i :: i >= abort ==> w.snapshot(i)
      modifies this
      ensures now > abort && var s := RunOf(w, Moment(Mirror(map[], old(tables)), old(now), old(asked)), false, abort);
              && Polled(complete, Here()) == PollOf(w, s, s.now + 3 + |w.order(s.now)|)
              && complete == w.manifest(s.now)
      ensures complete ==> forall c: Category :: Same(tables.Get(c), w.Held(now, c))
    {
      Run(w, abort);
      ghost var s := Here();
      forall c: Category | c in known && known[c] == w.HashAt(now, c) ensures Same(tables.Get(c), w.Held(now, c)) {
        InSync(w, c);
      }
      complete := Poll(w, now + 3 + |w.order(now)|);
      assert Polled(complete, Here()) == PollOf(w, s, s.now + 3 + |w.order(s.now)|);
      if complete {
        forall c: Category ensures Same(tables.Get(c), w.Held(now, c)) {
          assert EndsRightIff(w, s.now, s.m, State(), c);
        }
      }
    }
  }

  // ----- a master that returns -----

  /** A collision-free hash: the text as a number in base 257, without its zero digit. */
  function Code(t: Text): nat {
    if t == [] then 0 else 1 + t[0] + 257 * Code(t[1..])
  }

  lemma {:induction false} CodeInjective(a: Text, b: Text)
    requires Code(a) == Code(b)
    ensures a == b
  {
    if a == [] || b == [] {
    } else {
      var m, n := Code(a[1..]), Code(b[1..]);
      assert 257 * (m - n) == b[0] as int - a[0] as int;
      CodeInjective(a[1..], b[1..]);
      assert a == [a[0]] + a[1..] && b == [b[0]] + b[1..];
    }
  }

  const EMPTY_MASTER := PerCategory(Names([]), Names([]), Servers([]))

  /** The master's blocklist holds a name while the first poll requests its snapshots, and at no other time. */
  function BlinkingMaster(i: nat): PerCategory<Table> {
    if 4 <= i < 7 then EMPTY_MASTER.(block := Names([[97]])) else EMPTY_MASTER
  }

  /** A world in which every request and every apply succeeds. */
  function Blink(): World {
    World(BlinkingMaster, Code, (i: nat) => true, (i: nat) => true, (i: nat) => true, (i: nat) => true,
          (i: nat) => [BlockedNames, AllowedNames, Upstreams])
  }

  lemma BlinkIsSound()
    ensures Blink().Sound() && Blink().CollisionFree() && Blink().AppliesSucceed() && Blink().SettledFrom(7)
    ensures forall i: nat :: Blink().login(i) && Blink().manifest(i) && Blink().snapshot(i) && |Blink().order(i)| == 3
    ensures !Blink().NeverReturns(BlockedNames)
  {
    var w := Blink();
    forall i: nat, c ensures Clean(w.Held(i, c)) && Acceptable(w.Held(i, c)) {
      assert w.Held(i, c) in {Names([]), Names([[97]]), Servers([])};
    }
    forall i: nat, c: Category ensures c in w.order(i) {
      var order := w.order(i);
      match c
      case BlockedNames => assert order[0] == c;
      case AllowedNames => assert order[1] == c;
      case Upstreams => assert order[2] == c;
    }
    forall x, y | w.hash(x) == w.hash(y) ensures x == y {
      CodeInjective(x, y);
    }
    BlinkChanges();
    assert Same(w.Held(0, BlockedNames), w.Held(7, BlockedNames));
    assert !Same(w.Held(4, BlockedNames), w.Held(7, BlockedNames));
  }

  lemma BlinkChanges()
    ensures !Same(Names([[97]]), Names([])) && Same(Names([]), Names([]))
  {
    var a: Text := [97];
    assert a in [a];
  }

  /** The hash recorded is the one the master keeps showing, and the data is not what the master holds. */
  ghost predicate StuckWrong(w: World, m: Mirror, t: nat, c: Category) {
    c in m.known && m.known[c] == w.HashAt(t, c) && !Same(m.tables.Get(c), w.Held(t, c))
  }

  lemma {:induction false} VisitsStayStuck(w: World, t: nat, s: Moment, c: Category, hashes: PerCategory<nat>,
                                           order: seq<Category>, abort: nat)
    requires StuckWrong(w, s.m, t, c) && hashes.Get(c) == w.HashAt(t, c)
    ensures StuckWrong(w, VisitsOf(w, s, hashes, order, abort).after.m, t, c)
    decreases |order|
  {
    if order == [] || s.now >= abort {
    } else {
      VisitsStayStuck(w, t, VisitOf(w, s, order[0], hashes.Get(order[0])), c, hashes, order[1..], abort);
    }
  }

  /**
   Data stuck behind its own hash stays wrong in every run of a replica that is logged in and whose manifests
   can be fetched, however long and wherever it is aborted: nothing makes the replica forget the hash.
   */
  lemma {:induction false} RunStaysStuck(w: World, t: nat, s: Moment, c: Category, abort: nat)
    requires StuckWrong(w, s.m, t, c) && w.SettledFrom(t) && t <= s.now
    requires forall i: nat :: i >= t ==> w.manifest(i)
    ensures StuckWrong(w, RunOf(w, s, true, abort).m, t, c)
    decreases abort - s.now
  {
    if s.now >= abort {
    } else {
      assert w.master(s.now + 1) == w.master(s.now + 2) == w.master(s.now) == w.master(t);
      VisitsStayStuck(w, t, Fetched(s), c, ManifestAt(w, s.now), w.order(s.now), abort);
      var p := PollOf(w, s, abort);
      if p.ok {
        RunStaysStuck(w, t, p.after, c, abort);
      }
    }
  }

  /** The first poll asks for the blocklist's hash, then fetches another blocklist, and gets every reply. */
  lemma BlinkFirstPoll(abort: nat)
    requires abort >= 7
    ensures var p := PollOf(Blink(), LoginOf(Moment(Mirror(map[], EMPTY_MASTER), 0, [])), abort);
            p.ok && p.after.now == 7 && StuckWrong(Blink(), p.after.m, 7, BlockedNames)
  {
    var w, s := Blink(), Fetched(LoginOf(Moment(Mirror(map[], EMPTY_MASTER), 0, [])));
    var hashes := ManifestAt(w, 1);
    var s1 := VisitOf(w, s, BlockedNames, hashes.block);
    var s2 := VisitOf(w, s1, AllowedNames, hashes.allow);
    var s3 := VisitOf(w, s2, Upstreams, hashes.upstreams);
    var order := w.order(1);
    assert order[1..] == [AllowedNames, Upstreams] && order[1..][1..] == [Upstreams] && order[1..][1..][1..] == [];
    assert VisitsOf(w, s2, hashes, [Upstreams], abort) == Polled(true, s3);
    assert VisitsOf(w, s1, hashes, [AllowedNames, Upstreams], abort) == Polled(true, s3);
    assert VisitsOf(w, s, hashes, order, abort) == Polled(true, s3);
    var a: Text := [97];
    SnapshotIsSame(Names([a]));
    assert w.Held(7, BlockedNames) == Names([]) && w.Held(4, BlockedNames) == Names([a]);
    assert a in [a] && a in Snapshot(Names([a])).names;
  }

  /**
   Why the master must not return: every request and apply succeeds and no hash collides, yet from its first
   poll on the replica blocks a name the master does not, at whatever moment its run is looked at.
   */
  lemma ReturnGoesUnnoticed(abort: nat)
    requires abort >= 7
    ensures var r := RunOf(Blink(), Moment(Mirror(map[], EMPTY_MASTER), 0, []), false, abort);
            && StuckWrong(Blink(), r.m, 7, BlockedNames)
            && r.now >= abort && !Same(r.m.tables.Get(BlockedNames), Blink().Held(r.now, BlockedNames))
  {
    var w, s := Blink(), LoginOf(Moment(Mirror(map[], EMPTY_MASTER), 0, []));
    BlinkIsSound();
    BlinkFirstPoll(abort);
    var p := PollOf(w, s, abort);
    RunStaysStuck(w, 7, p.after, BlockedNames, abort);
    var r := RunOf(w, s, true, abort);
    assert r == RunOf(w, p.after, true, abort);
    assert w.master(r.now) == w.master(7);
  }
}

