/** The send-first socket gate (`rust/chain/src/foreground.rs`). */
module SocketGate {
  // The claim list drops what has expired whenever it is read; the history beside it
  // forgets nothing. Main results: `ClaimedExactly` (the pruned list answers as the
  // history does), `WaitsOnlyWhileHeld`, `LeavesExactlyWhenFree` and `NeverOutlasts`
  // over every interleaving of sends, time and one waiting walk, and
  // `IdlesExactlyWhen`: a renewal that shortens a claim wakes nobody.

  import opened Bytes

  datatype LiveClaim = Live(id: nat, deadline: nat)

  /** Each id's latest claim or renewal, not released since. */
  type History = map<nat, nat>

  ghost predicate Held(h: History, now: nat) {
    exists id :: id in h && h[id] > now
  }

  // ---- the list ----

  function Pruned(live: seq<LiveClaim>, now: nat): (r: seq<LiveClaim>)
    ensures forall c :: c in r <==> c in live && c.deadline > now
  {
    if live == [] then []
    else
      var front := Pruned(live[..|live| - 1], now);
      var c := live[|live| - 1];
      if c.deadline > now then front + [c] else front
  }

  function Last(live: seq<LiveClaim>): (r: Option<nat>)
    ensures r.None? <==> live == []
    ensures r.Some? ==> (exists c :: c in live && c.deadline == r.value) && forall c :: c in live ==> c.deadline <= r.value
  {
    if live == [] then None
    else
      var front := Last(live[..|live| - 1]);
      var c := live[|live| - 1];
      assert live == live[..|live| - 1] + [c];
      if front.Some? && front.value >= c.deadline then front else Some(c.deadline)
  }

  /** The first claim of this id runs to the new deadline, or a new one is pushed. */
  function Moved(live: seq<LiveClaim>, id: nat, deadline: nat): seq<LiveClaim> {
    if live == [] then [Live(id, deadline)]
    else if live[0].id == id then [Live(id, deadline)] + live[1..]
    else [live[0]] + Moved(live[1..], id, deadline)
  }

  function Released(live: seq<LiveClaim>, id: nat): (r: seq<LiveClaim>)
    ensures forall c :: c in r <==> c in live && c.id != id
  {
    if live == [] then []
    else
      var front := Released(live[..|live| - 1], id);
      var c := live[|live| - 1];
      if c.id != id then front + [c] else front
  }

  predicate OneEach(live: seq<LiveClaim>) {
    forall i, j :: 0 <= i < j < |live| ==> live[i].id != live[j].id
  }

  /** The list holds the history's claims, save some that have run out. */
  ghost predicate Refines(live: seq<LiveClaim>, h: History, now: nat) {
    && OneEach(live)
    && (forall c :: c in live ==> c.id in h && h[c.id] == c.deadline)
    && (forall id :: id in h && h[id] > now ==> Live(id, h[id]) in live)
  }

  lemma {:induction false} PrunedOneEach(live: seq<LiveClaim>, now: nat)
    requires OneEach(live)
    ensures OneEach(Pruned(live, now))
  {
    if live != [] {
      PrunedOneEach(live[..|live| - 1], now);
    }
  }

  lemma {:induction false} ReleasedOneEach(live: seq<LiveClaim>, id: nat)
    requires OneEach(live)
    ensures OneEach(Released(live, id))
  {
    if live != [] {
      ReleasedOneEach(live[..|live| - 1], id);
    }
  }

  lemma {:induction false} MovedMembers(live: seq<LiveClaim>, id: nat, deadline: nat)
    requires OneEach(live)
    ensures var r := Moved(live, id, deadline);
      OneEach(r) && forall c :: c in r <==> c == Live(id, deadline) || (c in live && c.id != id)
  {
    if live != [] {
      if live[0].id == id {
        assert forall c :: c in live <==> c == live[0] || c in live[1..];
      } else {
        MovedMembers(live[1..], id, deadline);
        assert forall c :: c in live <==> c == live[0] || c in live[1..];
      }
    }
  }

  /** **The pruned list answers as the whole history does.** */
  lemma ClaimedExactly(live: seq<LiveClaim>, h: History, clock: nat, now: nat)
    requires Refines(live, h, clock) && clock <= now
    ensures Refines(Pruned(live, now), h, now)
    ensures Last(Pruned(live, now)).Some? <==> Held(h, now)
    ensures Last(Pruned(live, now)).Some? ==>
      var u := Last(Pruned(live, now)).value; u > now && (exists id :: id in h && h[id] == u) && forall id :: id in h ==> h[id] <= u
  {
    PrunedOneEach(live, now);
    var p := Pruned(live, now);
    if Held(h, now) {
      var id :| id in h && h[id] > now;
      assert Live(id, h[id]) in p;
    }
    if p != [] {
      assert Last(p).Some?;
      var c :| c in p && c.deadline == Last(p).value;
      assert h[c.id] == c.deadline > now;
      forall id | id in h
        ensures h[id] <= Last(p).value
      {
        if h[id] > now {
          assert Live(id, h[id]) in p;
        }
      }
    }
  }

  lemma ClaimRefines(live: seq<LiveClaim>, h: History, clock: nat, now: nat, id: nat, deadline: nat)
    requires Refines(live, h, clock) && clock <= now && id !in h
    ensures Refines(live + [Live(id, deadline)], h[id := deadline], now)
  {
  }

  lemma RenewRefines(live: seq<LiveClaim>, h: History, clock: nat, now: nat, id: nat, deadline: nat)
    requires Refines(live, h, clock) && clock <= now
    ensures Refines(Moved(live, id, deadline), h[id := deadline], now)
  {
    MovedMembers(live, id, deadline);
  }

  lemma ReleaseRefines(live: seq<LiveClaim>, h: History, clock: nat, now: nat, id: nat)
    requires Refines(live, h, clock) && clock <= now
    ensures Refines(Released(live, id), h - {id}, now)
  {
    ReleasedOneEach(live, id);
  }

  /** **A renewal of an id nobody issued lingers.** It is not refused, and when a claim
      is later given that id the list holds it twice: it then answers "claimed" exactly
      when the history does, or the stray renewal still runs. */
  lemma StrayRenewalLingers(live: seq<LiveClaim>, h: History, clock: nat, now: nat, id: nat, stray: nat, deadline: nat)
    requires Refines(live, h, clock) && clock <= now && id !in h
    ensures var twice := Moved(live, id, stray) + [Live(id, deadline)];
      && !OneEach(twice)
      && (Last(Pruned(twice, now)).Some? <==> Held(h[id := deadline], now) || stray > now)
  {
    var moved := Moved(live, id, stray);
    var twice := moved + [Live(id, deadline)];
    MovedMembers(live, id, stray);
    var i :| 0 <= i < |moved| && moved[i] == Live(id, stray);
    assert twice[i].id == twice[|moved|].id;
    var h' := h[id := deadline];
    if Held(h', now) {
      var k :| k in h' && h'[k] > now;
      assert k != id ==> Live(k, h[k]) in live;
      assert Live(k, h'[k]) in twice;
      assert Live(k, h'[k]) in Pruned(twice, now);
    }
    if stray > now {
      assert twice[i] in Pruned(twice, now);
    }
    if Pruned(twice, now) != [] && stray <= now {
      var c := Pruned(twice, now)[0];
      assert c in twice && c.deadline > now;
      assert c.id in h' && h'[c.id] == c.deadline;
    }
  }

  // ---- in place ----

  method Retain(live: seq<LiveClaim>, now: nat) returns (kept: seq<LiveClaim>)
    ensures kept == Pruned(live, now)
  {
    kept := [];
    for i := 0 to |live|
      invariant kept == Pruned(live[..i], now)
    {
      assert live[..i + 1][..i] == live[..i];
      if live[i].deadline > now {
        kept := kept + [live[i]];
      }
    }
    assert live[..|live|] == live;
  }

  method Latest(live: seq<LiveClaim>) returns (last: Option<nat>)
    ensures last == Last(live)
  {
    last := None;
    for i := 0 to |live|
      invariant last == Last(live[..i])
    {
      assert live[..i + 1][..i] == live[..i];
      if last.None? || last.value < live[i].deadline {
        last := Some(live[i].deadline);
      }
    }
    assert live[..|live|] == live;
  }

  method Replace(live: seq<LiveClaim>, id: nat, deadline: nat) returns (r: seq<LiveClaim>)
    ensures r == Moved(live, id, deadline)
  {
    var i := 0;
    while i < |live| && live[i].id != id
      invariant 0 <= i <= |live|
      invariant forall j :: 0 <= j < i ==> live[j].id != id
    {
      i := i + 1;
    }
    MovedAt(live, id, deadline, i);
    r := if i < |live| then live[i := Live(id, deadline)] else live + [Live(id, deadline)];
  }

  lemma {:induction false} MovedAt(live: seq<LiveClaim>, id: nat, deadline: nat, i: nat)
    requires i <= |live| && (i < |live| ==> live[i].id == id)
    requires forall j :: 0 <= j < i ==> live[j].id != id
    ensures Moved(live, id, deadline) ==
      if i < |live| then live[i := Live(id, deadline)] else live + [Live(id, deadline)]
  {
    if i > 0 {
      MovedAt(live[1..], id, deadline, i - 1);
      assert live == [live[0]] + live[1..];
    }
  }

  class Foreground {
    var nextId: nat
    var live: seq<LiveClaim>
    ghost var history: History
    ghost var clock: nat
    /** No claim has been given an id that a renewal had taken before it was issued. */
    ghost var sound: bool

    ghost predicate Valid()
      reads this
    {
      sound ==> Refines(live, history, clock)
    }

    constructor ()
      ensures Valid() && history == map[] && clock == 0 && nextId == 0 && sound
    {
      nextId, live, history, clock, sound := 0, [], map[], 0, true;
    }

    /** The latest deadline among claims still live, dropping the rest. */
    method Until(now: nat) returns (last: Option<nat>)
      requires Valid() && clock <= now
      modifies `live, `clock
      ensures Valid() && clock == now && live == Pruned(old(live), now)
      ensures last == Last(live)
      ensures sound ==> (last.Some? <==> Held(history, now))
    {
      if sound {
        ClaimedExactly(live, history, clock, now);
      }
      live := Retain(live, now);
      clock := now;
      last := Latest(live);
    }

    /** Ids are issued in order; only one a renewal took before its time clashes. */
    method Claim(now: nat, hold: nat) returns (id: nat)
      requires Valid() && clock <= now
      modifies this
      ensures Valid() && clock == now
      ensures id == nextId == old(nextId) + 1 && history == old(history)[id := now + hold]
      ensures live == old(live) + [Live(id, now + hold)]
      ensures sound == (old(sound) && id !in old(history))
    {
      nextId := nextId + 1;
      id := nextId;
      sound := sound && id !in history;
      if sound {
        ClaimRefines(live, history, clock, now, id, now + hold);
      }
      live := live + [Live(id, now + hold)];
      history, clock := history[id := now + hold], now;
    }

    /** Any id: the first claim of it runs on, or a new one is pushed. */
    method Renew(now: nat, id: nat, hold: nat)
      requires Valid() && clock <= now
      modifies this
      ensures Valid() && clock == now && nextId == old(nextId) && sound == old(sound)
      ensures history == old(history)[id := now + hold] && live == Moved(old(live), id, now + hold)
    {
      if sound {
        RenewRefines(live, history, clock, now, id, now + hold);
      }
      live := Replace(live, id, now + hold);
      history, clock := history[id := now + hold], now;
    }

    /** Unknown or expired ids are ignored. */
    method Release(now: nat, id: nat)
      requires Valid() && clock <= now
      modifies this
      ensures Valid() && clock == now && nextId == old(nextId) && sound == old(sound)
      ensures history == old(history) - {id} && live == Released(old(live), id)
    {
      if sound {
        ReleaseRefines(live, history, clock, now, id);
      }
      var kept: seq<LiveClaim> := [];
      for i := 0 to |live|
        invariant kept == Released(live[..i], id)
      {
        assert live[..i + 1][..i] == live[..i];
        if live[i].id != id {
          kept := kept + [live[i]];
        }
      }
      assert live[..|live|] == live;
      live, history, clock := kept, history - {id}, now;
    }

    /** Whether some id's latest claim or renewal, not released since, still runs. */
    method IsClaimed(now: nat) returns (claimed: bool)
      requires Valid() && clock <= now
      modifies `live, `clock
      ensures Valid() && clock == now && live == Pruned(old(live), now)
      ensures sound ==> (claimed <==> Held(history, now))
    {
      var last := Until(now);
      claimed := last.Some?;
    }
  }

  // ---- one waiting walk among the sends ----

  /** `Armed` is between registering for notifications and reading the claims;
      a release sets `notified` on a registered walk. */
  datatype Walk =
    | Starting
    | Armed(notified: bool)
    | Waiting(until: nat, notified: bool)
    | Through(at: nat)

  /** `peak` is the greatest deadline granted so far; `cut` says that since the walk
      read its deadline, a renewal moved a claim from at or past it to before it. */
  datatype World = World(now: nat, nextId: nat, live: seq<LiveClaim>, history: History, walk: Walk, started: nat, peak: nat, cut: bool)

  datatype Event =
    | Take(hold: nat)
    | Renewal(id: nat, hold: nat)
    | GiveBack(id: nat)
    | Ask
    | Tick(to: nat)
    | Register
    | Look
    | Wake

  function Notified(w: Walk): Walk {
    match w
    case Armed(_) => Armed(true)
    case Waiting(u, _) => Waiting(u, true)
    case _ => w
  }

  /** Time passes only while the walk sleeps with nothing to wake it, or is through,
      and never past the instant its sleep ends. */
  predicate Can(w: World, e: Event) {
    match e
    case Tick(to) => w.now <= to && (w.walk.Through? || (w.walk.Waiting? && !w.walk.notified && to <= w.walk.until))
    case Register => w.walk.Starting?
    case Look => w.walk.Armed?
    case Wake => w.walk.Waiting? && (w.walk.notified || w.now >= w.walk.until)
    case Renewal(id, _) => id <= w.nextId
    case _ => true
  }

  predicate Cuts(w: World, id: nat, deadline: nat) {
    w.walk.Waiting? && id in w.history && w.history[id] >= w.walk.until && deadline < w.walk.until
  }

  function Next(w: World, e: Event): World {
    if !Can(w, e) then w
    else match e
      case Take(hold) =>
        var d, id := w.now + hold, w.nextId + 1;
        w.(nextId := id, live := w.live + [Live(id, d)], history := w.history[id := d], peak := Max(w.peak, d))
      case Renewal(id, hold) =>
        var d := w.now + hold;
        w.(live := Moved(w.live, id, d), history := w.history[id := d], peak := Max(w.peak, d), cut := w.cut || Cuts(w, id, d))
      case GiveBack(id) =>
        w.(live := Released(w.live, id), history := w.history - {id}, walk := Notified(w.walk))
      case Ask => w.(live := Pruned(w.live, w.now))
      case Tick(to) => w.(now := to)
      case Register => w.(walk := Armed(false))
      case Look =>
        var p := Pruned(w.live, w.now);
        if p == [] then w.(live := p, walk := Through(w.now), cut := false)
        else w.(live := p, walk := Waiting(Last(p).value, w.walk.notified), cut := false)
      case Wake => w.(walk := Starting)
  }

  function After(w: World, es: seq<Event>): World {
    if es == [] then w else Next(After(w, es[..|es| - 1]), es[|es| - 1])
  }

  ghost predicate Sound(w: World) {
    && Refines(w.live, w.history, w.now)
    && (forall id :: id in w.history ==> id <= w.nextId)
    && (forall id :: id in w.history ==> w.history[id] <= w.peak)
    && (w.walk.Starting? || w.walk.Armed? ==> w.now <= Max(w.peak, w.started))
    && (w.walk.Through? ==> w.walk.at <= Max(w.peak, w.started) && w.walk.at <= w.now)
    && (w.walk.Waiting? ==>
          && w.now <= w.walk.until <= w.peak
          && (w.walk.notified || w.cut || exists id :: id in w.history && w.history[id] >= w.walk.until))
  }

  lemma NextIsSound(w: World, e: Event)
    requires Sound(w)
    ensures Sound(Next(w, e))
  {
    if Can(w, e) {
      match e
      case Take(hold) => TakeIsSound(w, hold);
      case Renewal(id, hold) => RenewalIsSound(w, id, hold);
      case GiveBack(id) => ReleaseRefines(w.live, w.history, w.now, w.now, id);
      case Ask => ClaimedExactly(w.live, w.history, w.now, w.now);
      case Look => ClaimedExactly(w.live, w.history, w.now, w.now);
      case _ =>
    }
  }

  lemma TakeIsSound(w: World, hold: nat)
    requires Sound(w)
    ensures Sound(Next(w, Take(hold)))
  {
    ClaimRefines(w.live, w.history, w.now, w.now, w.nextId + 1, w.now + hold);
    var w' := Next(w, Take(hold));
    if w.walk.Waiting? && !w.walk.notified && !w.cut {
      var id :| id in w.history && w.history[id] >= w.walk.until;
      assert id in w'.history && w'.history[id] >= w'.walk.until;
    }
  }

  lemma RenewalIsSound(w: World, id: nat, hold: nat)
    requires Sound(w) && id <= w.nextId
    ensures Sound(Next(w, Renewal(id, hold)))
  {
    var d := w.now + hold;
    RenewRefines(w.live, w.history, w.now, w.now, id, d);
    RenewalKeepsWitness(w.history, id, d, w.walk, w.cut || Cuts(w, id, d));
    var w' := Next(w, Renewal(id, hold));
    assert forall k :: k in w'.history ==> w'.history[k] <= w'.peak;
  }

  lemma RenewalKeepsWitness(h: History, id: nat, d: nat, walk: Walk, cut: bool)
    requires walk.Waiting? && id in h && h[id] >= walk.until && d < walk.until ==> cut
    ensures var h' := h[id := d]; walk.Waiting? && !cut && (exists k :: k in h && h[k] >= walk.until) ==>
      exists k :: k in h' && h'[k] >= walk.until
  {
    var h' := h[id := d];
    if walk.Waiting? && !cut && exists k :: k in h && h[k] >= walk.until {
      var k :| k in h && h[k] >= walk.until;
      assert k in h' && h'[k] >= walk.until;
    }
  }

  lemma {:induction false} RunIsSound(w: World, es: seq<Event>)
    requires Sound(w)
    ensures Sound(After(w, es))
  {
    if es != [] {
      RunIsSound(w, es[..|es| - 1]);
      NextIsSound(After(w, es[..|es| - 1]), es[|es| - 1]);
    }
  }

  /** **A walk sleeps only while a send holds the socket.** In every run without a
      cutting renewal, wherever a release lands (also between the walk's read and its
      sleep), a walk that sleeps on finds the socket held. */
  lemma WaitsOnlyWhileHeld(w: World, es: seq<Event>)
    requires Sound(w)
    ensures var n := After(w, es);
      n.walk.Waiting? && !n.cut && !Can(n, Wake) ==> Held(n.history, n.now)
  {
    RunIsSound(w, es);
    var n := After(w, es);
    if n.walk.Waiting? && !n.cut && !Can(n, Wake) {
      var id :| id in n.history && n.history[id] >= n.walk.until;
      assert n.history[id] > n.now;
    }
  }

  /** The i-th event is a renewal that moves a claim from at or past the sleeping walk's
      deadline to before it. */
  predicate CutsAt(w: World, es: seq<Event>, i: int) {
    0 <= i < |es| && es[i].Renewal? && Cuts(After(w, es[..i]), es[i].id, After(w, es[..i]).now + es[i].hold)
  }

  /** Only such a renewal leaves the mark. */
  lemma {:induction false} OnlyACutIsMarked(w: World, es: seq<Event>)
    requires !w.cut
    ensures After(w, es).cut ==> exists i :: CutsAt(w, es, i)
  {
    if es != [] {
      var n := |es| - 1;
      OnlyACutIsMarked(w, es[..n]);
      if After(w, es[..n]).cut {
        var i :| CutsAt(w, es[..n], i);
        assert es[..n][..i] == es[..i];
        assert CutsAt(w, es, i);
      } else if After(w, es).cut {
        assert CutsAt(w, es, n);
      }
    }
  }

  /** A registered walk that looks is through if the socket is free, and else sleeps,
      woken already if it was notified. */
  lemma LookSettles(w: World)
    requires Sound(w) && w.walk.Armed?
    ensures var n := Next(w, Look);
      if Held(w.history, w.now) then n.walk.Waiting? && n.walk.notified == w.walk.notified else n.walk == Through(w.now)
  {
    ClaimedExactly(w.live, w.history, w.now, w.now);
  }

  /** The steps a walk takes from here to its next look. */
  function ToLook(w: Walk): seq<Event> {
    match w
    case Starting => [Register, Look]
    case Armed(_) => [Look]
    case _ => [Wake, Register, Look]
  }

  /** It looks at what is there: the claims and the clock are as they were. */
  lemma ReadyToLook(w: World) returns (ready: World)
    requires Sound(w) && !w.walk.Through? && (w.walk.Waiting? ==> Can(w, Wake))
    ensures After(w, ToLook(w.walk)) == Next(ready, Look)
    ensures Sound(ready) && ready == w.(walk := ready.walk) && ready.walk.Armed? && (w.walk.Armed? ==> ready == w)
  {
    match w.walk
    case Starting =>
      AfterTwo(w, Register, Look);
      ready := Next(w, Register);
    case Armed(_) =>
      AfterOne(w, Look);
      ready := w;
    case Waiting(_, _) =>
      AfterThree(w, Wake, Register, Look);
      ready := Next(Next(w, Wake), Register);
  }

  /** **A release lets the walk go at once:** whenever it comes, before the walk reads the
      claims, between its read and its sleep or during it, the walk is through at that
      instant if no other send holds the socket, and looks again if one does. */
  lemma ReleaseLetsGo(w: World, id: nat)
    requires Sound(w) && !w.walk.Through?
    ensures var freed := Next(w, GiveBack(id)); var n := After(freed, ToLook(freed.walk));
      && (!Held(w.history - {id}, w.now) ==> n.walk == Through(w.now))
      && (Held(w.history - {id}, w.now) ==> n.walk.Waiting? && (w.walk.Armed? ==> Can(n, Wake)))
  {
    var freed := Next(w, GiveBack(id));
    NextIsSound(w, GiveBack(id));
    var ready := ReadyToLook(freed);
    LookSettles(ready);
  }

  lemma AfterOne(w: World, a: Event)
    ensures After(w, [a]) == Next(w, a)
  {
    assert [a][..0] == [] && After(w, []) == w;
  }

  lemma AfterTwo(w: World, a: Event, b: Event)
    ensures After(w, [a, b]) == Next(Next(w, a), b)
  {
    assert [a, b][..1] == [a];
    AfterOne(w, a);
  }

  lemma AfterThree(w: World, a: Event, b: Event, c: Event)
    ensures After(w, [a, b, c]) == Next(Next(Next(w, a), b), c)
  {
    assert [a, b, c][..2] == [a, b];
    AfterTwo(w, a, b);
  }

  /** **It leaves exactly at a free instant:** when it looks, it goes through if and
      only if no claim or renewal in the whole history still runs. */
  lemma LeavesExactlyWhenFree(w: World, es: seq<Event>)
    requires Sound(w) && After(w, es).walk.Armed?
    ensures Next(After(w, es), Look).walk.Through? <==> !Held(After(w, es).history, After(w, es).now)
  {
    RunIsSound(w, es);
    var n := After(w, es);
    ClaimedExactly(n.live, n.history, n.now, n.now);
  }

  /** **It never outlasts the last deadline granted,** in any run, cut or not. */
  lemma NeverOutlasts(w: World, es: seq<Event>)
    requires Sound(w)
    ensures var n := After(w, es);
      && (n.walk.Waiting? ==> n.now <= n.peak)
      && (n.walk.Through? ==> n.walk.at <= Max(n.peak, n.started))
      && (!n.walk.Through? ==> n.now <= Max(n.peak, n.started))
  {
    RunIsSound(w, es);
  }

  /** **When it idles.** From a sleeping, unnotified walk, with no further send: time
      can reach an instant at which the socket is free and the walk sleeps on, if and
      only if no running claim reaches its deadline. */
  lemma IdlesExactlyWhen(w: World)
    requires Sound(w) && w.walk.Waiting? && !w.walk.notified && w.now < w.walk.until
    ensures (exists t: nat :: Can(w, Tick(t)) && !Can(Next(w, Tick(t)), Wake) && !Held(w.history, t))
      <==> forall id :: id in w.history ==> w.history[id] < w.walk.until
  {
    if forall id :: id in w.history ==> w.history[id] < w.walk.until {
      var t := w.walk.until - 1;
      assert Can(w, Tick(t)) && !Can(Next(w, Tick(t)), Wake) && !Held(w.history, t);
    }
  }

  /** Such a state is reached by one renewal that shortens the only claim. */
  lemma ShorteningRenewalIdles(w: World, id: nat, hold: nat)
    requires Sound(w) && w.walk.Waiting? && !w.walk.notified && w.now < w.walk.until
    requires w.history.Keys == {id} && w.now + hold < w.walk.until
    ensures var n := Next(w, Renewal(id, hold));
      n.walk == w.walk && n.cut && forall k :: k in n.history ==> n.history[k] < n.walk.until
  {
    if !w.cut {
      var k :| k in w.history && w.history[k] >= w.walk.until;
      assert k in w.history.Keys;
    }
    assert id in w.history.Keys;
  }
}
