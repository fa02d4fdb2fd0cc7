/** Two sessions over the encrypted link: the network carries what the clients transmit, encrypted under any
    nonces, and loses, duplicates and reorders that. Its runs and those of sessions over the plain network
    match one another, so what is proved of those holds here. */
module TunnelWire {
  import opened Bytes
  import opened Codec
  import opened SessionSpec
  import opened TunnelNet
  import opened TunnelSafety
  import opened TunnelNoLoss
  import opened TunnelRecovery
  import opened TunnelPlain
  import opened TunnelCrypto
  import opened Aead

  /** The client at one end, with the secret it shares with its peer. */
  datatype Client = Client(secret: seq<byte>, me: seq<byte>, peer: seq<byte>)
  {
    /** Clients have names, `start` refuses an empty uuid. */
    predicate Named() { me != [] && peer != [] }

    function Peer(): Client { Client(secret, peer, me) }
  }

  /** A call on one end, with the random bytes for the frames it transmits. */
  type WireMove = (Move, seq<Nonce>)

  function NonceAt(nonces: seq<Nonce>, i: nat): Nonce {
    if i < |nonces| then nonces[i] else seq(12, j => 0)
  }

  /** What is transmitted for a frame of the session. */
  function Transmit(c: Client, nonce: Nonce, f: seq<byte>): seq<byte> {
    if WholeFrame(f) then Outgoing(c.secret, c.me, c.peer, nonce, f) else f
  }

  /** What the session is given for a packet. */
  function Accept(c: Client, g: seq<byte>): seq<byte> {
    if LooksEncrypted(g) && HEADER_LEN + PayloadLen(g) > |g| then g else Incoming(c.secret, c.me, c.peer, g)
  }

  function Ciphers(c: Client, tx: seq<seq<byte>>, nonces: seq<Nonce>): (r: seq<seq<byte>>)
    ensures |r| == |tx|
  {
    seq(|tx|, i requires 0 <= i < |tx| => Transmit(c, NonceAt(nonces, i), tx[i]))
  }

  /** As the step of the plain network, with encryption on the way out and decryption on the way in. */
  function WireStepA(c: Client, y: Sys, act: Act, nonces: seq<Nonce>): Sys {
    match act
    case Send(channel, data, reliable) =>
      var (rc, o) := SessionSpec.Send(y.a.s, channel, data, reliable, y.clock);
      var sent := if rc == 0 && reliable then y.a.sent + [Item(channel, data)] else y.a.sent;
      y.(a := After(y.a, Enciphered(c, o, nonces)).(sent := sent))
    case Tick => y.(a := After(y.a, Enciphered(c, SessionSpec.Tick(y.a.s, y.clock), nonces)))
    case Receive(g) => y.(a := After(y.a, Enciphered(c, OnFrame(y.a.s, Accept(c, g)), nonces)))
    case Drop(g) => y.(b := y.b.(flying := y.b.flying - {g}))
    case Wait(ms) => y.(clock := y.clock + ms)
  }

  function Enciphered(c: Client, o: Out, nonces: seq<Nonce>): Out { o.(tx := Ciphers(c, o.tx, nonces)) }

  function WireStep(c: Client, y: Sys, m: WireMove): Sys {
    if m.0.0 == A then WireStepA(c, y, m.0.1, m.1) else Swap(WireStepA(c.Peer(), Swap(y), m.0.1, m.1))
  }

  function WireRun(c: Client, y: Sys, moves: seq<WireMove>): Sys {
    if moves == [] then y else WireStep(c, WireRun(c, y, moves[..|moves| - 1]), moves[|moves| - 1])
  }

  predicate WireValid(c: Client, y: Sys, moves: seq<WireMove>) {
    moves != [] ==>
      var n := |moves| - 1;
      WireValid(c, y, moves[..n]) && Enabled(WireRun(c, y, moves[..n]), moves[n].0)
  }

  // ---- the simulation ----

  /** Ciphertext `g` in flight decrypts, at the client `to`, to the frame `p`. */
  predicate Carries(to: Client, flying: set<seq<byte>>, g: seq<byte>, p: seq<byte>) {
    g in flying && Accept(to, g) == p
  }

  /** What is in flight at `w` decrypts, at `to`, to exactly the frames in flight at `x`. */
  ghost predicate SameFrames(to: Client, w: set<seq<byte>>, x: set<seq<byte>>) {
    && (forall g :: g in w ==> Accept(to, g) in x)
    && (forall p :: p in x ==> exists g :: Carries(to, w, g, p))
  }

  ghost predicate EndSim(c: Client, w: End, x: End) {
    w.s == x.s && w.sent == x.sent && w.got == x.got && SameFrames(c.Peer(), w.flying, x.flying)
  }

  ghost predicate Sim(c: Client, w: Sys, y: Sys) {
    EndSim(c, w.a, y.a) && EndSim(c.Peer(), w.b, y.b) && w.clock == y.clock
  }

  lemma AcceptTransmit(c: Client, nonce: Nonce, p: seq<byte>)
    requires c.Named() && Plain(p)
    ensures Accept(c.Peer(), Transmit(c, nonce, p)) == p
  {
    hide Incoming, Outgoing;
    Transparent(c.secret, c.me, c.peer, nonce, p);
  }

  /** A call of the session gives the same on both sides, if what it transmits is plain. */
  lemma AfterSim(c: Client, w: End, x: End, o: Out, nonces: seq<Nonce>)
    requires c.Named() && EndSim(c, w, x) && OutPlain(o)
    ensures EndSim(c, After(w, Enciphered(c, o, nonces)), After(x, o))
  {
    hide Accept, Transmit, Plain;
    var to := c.Peer();
    var sent := Ciphers(c, o.tx, nonces);
    var w', x' := After(w, Enciphered(c, o, nonces)).flying, After(x, o).flying;
    forall i | 0 <= i < |sent| ensures Accept(to, sent[i]) == o.tx[i] && o.tx[i] in o.tx && sent[i] in sent {
      assert o.tx[i] in o.tx;
      AcceptTransmit(c, NonceAt(nonces, i), o.tx[i]);
    }
    forall p | p in x' ensures exists g :: Carries(to, w', g, p) {
      if p in x.flying {
        var g :| Carries(to, w.flying, g, p);
        assert Carries(to, w', g, p);
      } else {
        var i :| 0 <= i < |o.tx| && o.tx[i] == p;
        assert Carries(to, w', sent[i], p);
      }
    }
  }

  /** Losing one of several ciphertexts of a frame loses nothing, losing the last loses the frame. */
  lemma DropSim(c: Client, w: End, x: End, g: seq<byte>) returns (lost: bool)
    requires EndSim(c, w, x)
    ensures EndSim(c, w.(flying := w.flying - {g}),
                   if lost then x.(flying := x.flying - {Accept(c.Peer(), g)}) else x)
  {
    hide Accept;
    var to, p, left := c.Peer(), Accept(c.Peer(), g), w.flying - {g};
    lost := g in w.flying && forall h :: !Carries(to, left, h, p);
    forall q | q in x.flying && (lost ==> q != p) ensures exists h :: Carries(to, left, h, q) {
      var h :| Carries(to, w.flying, h, q);
      if h == g {
        assert q == p;
      } else {
        assert Carries(to, left, h, q);
      }
    }
    forall h | h in left ensures lost ==> Accept(to, h) != p { assert Carries(to, left, h, p) <==> Accept(to, h) == p; }
  }

  /** The move of the plain network that a move of the encrypted one other than a loss stands for. */
  function PlainAct(c: Client, act: Act): Act {
    if act.Receive? then Receive(Accept(c, act.packet)) else act
  }

  lemma CallSim(c: Client, w: Sys, y: Sys, act: Act, nonces: seq<Nonce>)
    requires c.Named() && Sim(c, w, y) && EnabledA(w, act) && AllPlain(y.a) && !act.Drop?
    ensures EnabledA(y, PlainAct(c, act))
    ensures Sim(c, WireStepA(c, w, act, nonces), StepA(y, PlainAct(c, act)))
  {
    hide Accept, Enciphered, Plain, OnFrame, SessionSpec.Send, SessionSpec.Tick;
    match act
    case Send(channel, data, reliable) =>
      var o := SessionSpec.Send(y.a.s, channel, data, reliable, y.clock).1;
      SendOutPlain(y.a, channel, data, reliable, y.clock);
      AfterSim(c, w.a, y.a, o, nonces);
    case Tick =>
      TickOutPlain(y.a, y.clock);
      AfterSim(c, w.a, y.a, SessionSpec.Tick(y.a.s, y.clock), nonces);
    case Receive(g) =>
      ReceiveOutPlain(y.a, Accept(c, g));
      AfterSim(c, w.a, y.a, OnFrame(y.a.s, Accept(c, g)), nonces);
    case Wait(_) =>
  }

  lemma StepSim(c: Client, w: Sys, y: Sys, act: Act, nonces: seq<Nonce>) returns (plain: Act)
    requires c.Named() && Sim(c, w, y) && EnabledA(w, act) && AllPlain(y.a)
    ensures EnabledA(y, plain) && (plain.Send? <==> act.Send?)
    ensures Sim(c, WireStepA(c, w, act, nonces), StepA(y, plain))
  {
    hide EndSim, Accept, AllPlain;
    if act.Drop? {
      var lost := DropSim(c.Peer(), w.b, y.b, act.packet);
      plain := if lost then Drop(Accept(c, act.packet)) else Wait(0);
    } else {
      CallSim(c, w, y, act, nonces);
      plain := PlainAct(c, act);
    }
  }

  predicate SendFree(moves: seq<WireMove>) {
    forall i :: 0 <= i < |moves| ==> !moves[i].0.1.Send?
  }

  lemma StepBothPlain(y: Sys, m: Move)
    requires Enabled(y, m) && AllPlain(y.a) && AllPlain(y.b)
    ensures AllPlain(Step(y, m).a) && AllPlain(Step(y, m).b)
  {
    hide AllPlain, StepA, EnabledA;
    if m.0 == A { StepPlain(y, m.1); } else { StepPlain(Swap(y), m.1); }
  }

  /** Every run over the encrypted link has the sessions, sends, deliveries and frames in flight of a run over
      the plain one. */
  lemma {:induction false} RunSim(c: Client, w: Sys, y: Sys, moves: seq<WireMove>) returns (plain: seq<Move>)
    requires c.Named() && Sim(c, w, y) && AllPlain(y.a) && AllPlain(y.b) && WireValid(c, w, moves)
    ensures Valid(y, plain) && (SendFree(moves) ==> Quiet(plain))
    ensures var z := Run(y, plain); Sim(c, WireRun(c, w, moves), z) && AllPlain(z.a) && AllPlain(z.b)
  {
    hide EndSim, AllPlain, WireStepA, StepA, EnabledA;
    if moves == [] {
      plain := [];
    } else {
      var n := |moves| - 1;
      var who, act := moves[n].0.0, moves[n].0.1;
      var before := RunSim(c, w, y, moves[..n]);
      var w', y' := WireRun(c, w, moves[..n]), Run(y, before);
      var p;
      if who == A { p := StepSim(c, w', y', act, moves[n].1); }
      else { p := StepSim(c.Peer(), Swap(w'), Swap(y'), act, moves[n].1); }
      plain := before + [(who, p)];
      RunSnoc(y, before, (who, p));
      StepBothPlain(y', (who, p));
    }
  }

  lemma {:induction false} WireConcat(c: Client, y: Sys, m1: seq<WireMove>, m2: seq<WireMove>)
    ensures WireRun(c, y, m1 + m2) == WireRun(c, WireRun(c, y, m1), m2)
    ensures WireValid(c, y, m1 + m2) <==> WireValid(c, y, m1) && WireValid(c, WireRun(c, y, m1), m2)
    decreases |m2|
  {
    hide WireStep, Enabled;
    if m2 == [] {
      assert m1 + m2 == m1;
    } else {
      var n := |m2| - 1;
      WireConcat(c, y, m1, m2[..n]);
      assert (m1 + m2)[..|m1 + m2| - 1] == m1 + m2[..n];
    }
  }

  lemma WireOne(c: Client, y: Sys, m: WireMove)
    ensures WireRun(c, y, [m]) == WireStep(c, y, m) && (WireValid(c, y, [m]) <==> Enabled(y, m.0))
  {
    assert [m][..0] == [];
  }

  function AfterLosses(w: Sys, who: Who, gone: set<seq<byte>>): Sys {
    if who == A then w.(b := w.b.(flying := w.b.flying - gone)) else w.(a := w.a.(flying := w.a.flying - gone))
  }

  lemma {:induction false} LoseAll(c: Client, w: Sys, who: Who, gone: set<seq<byte>>) returns (moves: seq<WireMove>)
    ensures SendFree(moves) && WireValid(c, w, moves) && WireRun(c, w, moves) == AfterLosses(w, who, gone)
  {
    if g :| g in gone {
      var before := LoseAll(c, w, who, gone - {g});
      var m := ((who, Drop(g)), []);
      moves := before + [m];
      assert moves[..|before|] == before;
      assert gone == gone - {g} + {g};
      assert WireStep(c, AfterLosses(w, who, gone - {g}), m) == AfterLosses(w, who, gone);
    } else {
      moves := [];
      assert AfterLosses(w, who, gone) == w;
    }
  }

  /** Losing a frame takes losing every ciphertext that carries it. */
  lemma LoseFrame(c: Client, w: Sys, y: Sys, who: Who, p: seq<byte>) returns (moves: seq<WireMove>)
    requires Sim(c, w, y)
    ensures SendFree(moves) && WireValid(c, w, moves) && Sim(c, WireRun(c, w, moves), Step(y, (who, Drop(p))))
  {
    hide Accept, WireRun, WireValid;
    var to := if who == A then c else c.Peer();
    var from, x := if who == A then w.b else w.a, if who == A then y.b else y.a;
    var gone := set g | g in from.flying && Accept(to, g) == p;
    moves := LoseAll(c, w, who, gone);
    forall q | q in x.flying && q != p ensures exists g :: Carries(to, from.flying - gone, g, q) {
      var g :| Carries(to, from.flying, g, q);
      assert Carries(to, from.flying - gone, g, q);
    }
  }

  /** The other way round: a move of the plain network, by moves over the encrypted link. */
  lemma StepBack(c: Client, w: Sys, y: Sys, m: Move) returns (moves: seq<WireMove>)
    requires c.Named() && Sim(c, w, y) && AllPlain(y.a) && AllPlain(y.b) && Enabled(y, m)
    ensures WireValid(c, w, moves) && (!m.1.Send? ==> SendFree(moves))
    ensures Sim(c, WireRun(c, w, moves), Step(y, m))
  {
    hide Accept, WireStepA, AllPlain;
    if m.1.Drop? {
      moves := LoseFrame(c, w, y, m.0, m.1.packet);
    } else {
      var at := if m.0 == A then c else c.Peer();
      var w', y' := if m.0 == A then w else Swap(w), if m.0 == A then y else Swap(y);
      var act := m.1;
      if m.1.Receive? {
        var g :| Carries(at, w'.b.flying, g, m.1.packet);
        act := Receive(g);
      }
      CallSim(at, w', y', act, []);
      moves := [((m.0, act), [])];
      WireOne(c, w, moves[0]);
    }
  }

  /** Every run over the plain network is matched by one over the encrypted link. */
  lemma {:induction false} RunBack(c: Client, w: Sys, y: Sys, plain: seq<Move>) returns (moves: seq<WireMove>)
    requires c.Named() && Sim(c, w, y) && AllPlain(y.a) && AllPlain(y.b) && Valid(y, plain)
    ensures WireValid(c, w, moves) && (Quiet(plain) ==> SendFree(moves))
    ensures var z := Run(y, plain); Sim(c, WireRun(c, w, moves), z) && AllPlain(z.a) && AllPlain(z.b)
  {
    hide Sim, AllPlain, Step, WireStep, Enabled;
    if plain == [] {
      moves := [];
    } else {
      var n := |plain| - 1;
      var before := RunBack(c, w, y, plain[..n]);
      var y' := Run(y, plain[..n]);
      var more := StepBack(c, WireRun(c, w, before), y', plain[n]);
      moves := before + more;
      WireConcat(c, w, before, more);
      StepBothPlain(y', plain[n]);
    }
  }

  lemma StartSim(c: Client, sidA: u16, sidB: u16, clock: nat)
    ensures var y := Start(sidA, sidB, clock); Sim(c, y, y) && AllPlain(y.a) && AllPlain(y.b)
  {
  }

  // ---- what holds over the encrypted link ----

  /** Over the encrypted link, with any nonces, loss, duplication and reordering: the deliveries are a prefix
      of the sends, in order and exactly once. */
  lemma EncryptedPrefixDelivery(c: Client, sidA: u16, sidB: u16, clock: nat, moves: seq<WireMove>)
    requires c.Named() && WireValid(c, Start(sidA, sidB, clock), moves)
    ensures var w := WireRun(c, Start(sidA, sidB, clock), moves);
            && (|w.a.sent| <= SAFE_SENDS ==> DeliveredInOrder(w.a, w.b))
            && (|w.b.sent| <= SAFE_SENDS ==> DeliveredInOrder(w.b, w.a))
  {
    hide WireRun, Run, WireValid, Valid, Accept;
    StartSim(c, sidA, sidB, clock);
    var plain := RunSim(c, Start(sidA, sidB, clock), Start(sidA, sidB, clock), moves);
    PrefixDelivery(sidA, sidB, clock, plain);
  }

  /** And no frame but number 0 is lost. */
  lemma EncryptedNoLoss(c: Client, sidA: u16, sidB: u16, clock: nat, moves: seq<WireMove>)
    requires c.Named() && WireValid(c, Start(sidA, sidB, clock), moves)
    ensures var w := WireRun(c, Start(sidA, sidB, clock), moves);
            && (|w.a.sent| <= KEPT_SENDS ==> NothingLost(w.a, w.b))
            && (|w.b.sent| <= KEPT_SENDS ==> NothingLost(w.b, w.a))
  {
    hide WireRun, Run, WireValid, Valid, Accept, MsgOk;
    var y0 := Start(sidA, sidB, clock);
    StartSim(c, sidA, sidB, clock);
    var plain := RunSim(c, y0, y0, moves);
    NoLoss(sidA, sidB, clock, plain);
    var w, y := WireRun(c, y0, moves), Run(y0, plain);
    SameKept(w.a, w.b, y.a, y.b);
    SameKept(w.b, w.a, y.b, y.a);
  }

  lemma SameKept(w: End, v: End, x: End, r: End)
    requires w.s == x.s && w.sent == x.sent && v.s == r.s
    ensures NothingLost(x, r) ==> NothingLost(w, v)
  {
    hide MsgOk;
    forall k | StillPending(x, k) ensures StillPending(w, k) {
      var m :| m in x.s.pending && m.sequence == k && MsgOk(m, x.sent);
      assert m in w.s.pending && MsgOk(m, w.sent);
    }
  }

  /** Number 0 is pending, delivered, or in flight as a ciphertext that decrypts to it. */
  predicate WireZero(c: Client, x: End, r: End) {
    Base(x) <= r.s.expected || exists g :: g in x.flying && IsZero(Accept(c.Peer(), g))
  }

  ghost predicate WireFinishes(c: Client, w: Sys, moves: seq<WireMove>) {
    && SendFree(moves) && WireValid(c, w, moves)
    && var z := WireRun(c, w, moves); Done(z.a, z.b) && Done(z.b, z.a)
  }

  ghost predicate WireRecoverable(c: Client, w: Sys) {
    exists moves :: WireFinishes(c, w, moves)
  }

  lemma SameZero(c: Client, w: End, v: End, x: End, r: End)
    requires EndSim(c, w, x) && EndSim(c.Peer(), v, r)
    ensures WireZero(c, w, v) <==> ZeroAvailable(x, r)
  {
    hide Accept, IsZero;
    if p :| p in x.flying && IsZero(p) {
      var g :| Carries(c.Peer(), w.flying, g, p);
    }
  }

  lemma SameRecoverable(c: Client, w: Sys, y: Sys)
    requires c.Named() && Sim(c, w, y) && AllPlain(y.a) && AllPlain(y.b)
    ensures WireRecoverable(c, w) <==> Recoverable(y)
  {
    hide WireRun, WireValid, SendFree, Run, Valid, Quiet, AllPlain, SameFrames;
    if moves :| WireFinishes(c, w, moves) {
      var plain := RunSim(c, w, y, moves);
      assert Reaches(y, Run(y, plain));
    }
    if z :| Reaches(y, z) && Done(z.a, z.b) && Done(z.b, z.a) {
      var plain :| Quiet(plain) && Valid(y, plain) && Run(y, plain) == z;
      var moves := RunBack(c, w, y, plain);
      assert WireFinishes(c, w, moves);
    }
  }

  /** Over the encrypted link too: retransmission alone finishes both directions exactly when frame 0 of each is
      pending, delivered, or in flight under some ciphertext. */
  lemma EncryptedRecoverableIff(c: Client, sidA: u16, sidB: u16, clock: nat, moves: seq<WireMove>)
    requires c.Named() && WireValid(c, Start(sidA, sidB, clock), moves)
    ensures var w := WireRun(c, Start(sidA, sidB, clock), moves);
            |w.a.sent| <= KEPT_SENDS && |w.b.sent| <= KEPT_SENDS ==>
              (WireRecoverable(c, w) <==> WireZero(c, w.a, w.b) && WireZero(c.Peer(), w.b, w.a))
  {
    hide WireRun, WireValid, Run, Valid, WireZero, ZeroAvailable, WireRecoverable, Recoverable, AllPlain, SameFrames;
    var y0 := Start(sidA, sidB, clock);
    StartSim(c, sidA, sidB, clock);
    var plain := RunSim(c, y0, y0, moves);
    var w, y := WireRun(c, y0, moves), Run(y0, plain);
    RecoverableIff(sidA, sidB, clock, plain);
    SameRecoverable(c, w, y);
    SameZero(c, w.a, w.b, y.a, y.b);
    SameZero(c.Peer(), w.b, w.a, y.b, y.a);
  }

  /** Once frame 0 is out of reach, nothing is ever delivered in that direction, whatever is called, sent,
      encrypted, delivered or lost afterwards. */
  lemma EncryptedStuckForever(c: Client, sidA: u16, sidB: u16, clock: nat, moves: seq<WireMove>, more: seq<WireMove>)
    requires c.Named() && WireValid(c, Start(sidA, sidB, clock), moves)
    requires var w := WireRun(c, Start(sidA, sidB, clock), moves);
             !WireZero(c, w.a, w.b) && WireValid(c, w, more)
    ensures var z := WireRun(c, WireRun(c, Start(sidA, sidB, clock), moves), more);
            |z.a.sent| <= KEPT_SENDS && |z.b.sent| <= KEPT_SENDS ==>
              z.b.s.expected == 0 && Reliable(z.b.got) == [] && !WireZero(c, z.a, z.b)
  {
    hide WireRun, WireValid, Run, Valid, WireZero, ZeroAvailable, AllPlain, SameFrames, Inv, Stuck;
    var y0 := Start(sidA, sidB, clock);
    StartSim(c, sidA, sidB, clock);
    var plain := RunSim(c, y0, y0, moves);
    var w, y := WireRun(c, y0, moves), Run(y0, plain);
    var after := RunSim(c, w, y, more);
    var z, x := WireRun(c, w, more), Run(y, after);
    RunConcat(y0, plain, after);
    SentNeverFalls(y, after);
    if |z.a.sent| <= KEPT_SENDS && |z.b.sent| <= KEPT_SENDS {
      InvRun(sidA, sidB, clock, plain);
      SameZero(c, w.a, w.b, y.a, y.b);
      SameZero(c, z.a, z.b, x.a, x.b);
      StuckExactly(y);
      StuckForever(y, after);
      StuckExactly(x);
      PrefixDelivery(sidA, sidB, clock, plain + after);
    }
  }
}
