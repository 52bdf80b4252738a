/**
 The client's connection: `NetworkManager::Impl` with its four states, the recovery
 counter and the cancel flag. Each handler, each pass of `threadMainFunc` and each slice
 of its back-off sleep is one atomic step; a run is any sequence of such steps.
 */
module ClientConnection {

  datatype ConnectionState = Disconnected | TcpConnecting | Authenticating | Established

  /** Where the main thread is: between passes, or in the 50-slice sleep of a failed recovery attempt. */
  datatype Phase = Idle | Sleeping(slices: nat, period: nat)

  const SLICES := 50
  const BASE_PERIOD := 10000
  const MAX_ATTEMPTS := 3

  /**
   `socketUp` and `udpUp` are the `connected` flags of the two sockets; `connects` and `backoff`
   count TCP connects and milliseconds slept since the last loss.
   */
  datatype Client = Client(
    state: ConnectionState,
    recovering: bool,
    recoverAttempt: nat,
    cancelling: bool,
    standalone: bool,
    wasFromRecovery: bool,
    socketUp: bool,
    udpUp: bool,
    suspended: bool,
    phase: Phase,
    connects: nat,
    backoff: nat)

  /**
   Outcomes the environment decides during one main pass. A connect or a send that fails leaves the
   TCP socket up or down (`tcpLeft`), and can have connected the UDP socket before (`udpLeft`).
   `timedOut` is five seconds of authentication, `stale` twenty seconds without a packet.
   */
  datatype Outcome = Outcome(connectOk: bool, sendOk: bool, tcpLeft: bool, udpLeft: bool, timedOut: bool, stale: bool)

  datatype Packet = LoggedIn | RecoveryFailed(hasToken: bool) | Rejected | Other

  datatype Event =
    | UserConnect(standalone: bool, hasToken: bool)
    | UserDisconnect
    | CancelReconnect
    | Suspend
    | Resume
    | SocketLost
    | MainPass(outcome: Outcome)
    | SleepSlice
    | PacketArrives(packet: Packet)

  const INITIAL := Client(Disconnected, false, 0, false, false, false, false, false, false, Idle, 0, 0)

  // ---------------------------------------------------------------- the steps

  function Disconnect(c: Client): (r: Client) {
    c.(state := Disconnected, standalone := false, recovering := false, cancelling := false,
       recoverAttempt := 0, socketUp := false, udpUp := false)
  }

  /** `connect`, which refuses while a connection is being made, and a regular one without a token. */
  function Connect(c: Client, standalone: bool, hasToken: bool, fromRecovery: bool): (r: Client) {
    var c := if c.state == Established then Disconnect(c) else c;
    if c.state != Disconnected then c
    else
      var c := c.(standalone := standalone, wasFromRecovery := fromRecovery);
      if !standalone && !hasToken then c
      else c.(recovering := false, recoverAttempt := 0, state := TcpConnecting)
  }

  /** `threadRecvFunc` listens, and a packet of the server passes as one: over TCP, or over a connected UDP socket. */
  predicate Hears(c: Client) {
    !c.suspended && c.state != TcpConnecting && (c.socketUp || c.udpUp)
  }

  function OnPacket(c: Client, p: Packet): (r: Client) {
    if !Hears(c) then c
    else
      match p
      case LoggedIn =>
        var c := c.(state := Established);
        if c.recovering || c.wasFromRecovery then c.(recovering := false, recoverAttempt := 0) else c
      case RecoveryFailed(hasToken) =>
        var c := Disconnect(c);
        Connect(c, c.standalone, hasToken, true)
      case Rejected => Disconnect(c)
      case Other => c
  }

  /** A recovery attempt that failed: give up after the fourth, otherwise go to sleep. */
  function AttemptFailed(c: Client): (r: Client) {
    var attempt := c.recoverAttempt + 1;
    var last := attempt > MAX_ATTEMPTS;
    c.(recoverAttempt := if last then 0 else attempt, recovering := c.recovering && !last,
       state := if last then Disconnected else c.state,
       phase := if last then c.phase else Sleeping(SLICES, BASE_PERIOD * attempt))
  }

  /** What the attempt does to the sockets and the state before it fails or succeeds. */
  function Attempted(c: Client, o: Outcome): (r: Client) {
    c.(connects := c.connects + 1, state := if o.connectOk then Authenticating else c.state,
       socketUp := (o.connectOk && o.sendOk) || o.tcpLeft, udpUp := c.udpUp || o.connectOk || o.udpLeft)
  }

  function RecoveryPass(c: Client, o: Outcome): (r: Client) {
    if o.connectOk && o.sendOk then Attempted(c, o) else AttemptFailed(Attempted(c, o))
  }

  function Pass(c: Client, o: Outcome): (r: Client) {
    if c.suspended then c
    else if c.state == TcpConnecting && !c.recovering then
      if o.connectOk then c.(state := Authenticating, socketUp := true, udpUp := true) else Disconnect(c)
    else if c.state == TcpConnecting then RecoveryPass(c, o)
    else if c.state == Established && !c.socketUp then
      c.(state := TcpConnecting, recovering := true, cancelling := false, recoverAttempt := 0, connects := 0, backoff := 0)
    else if c.state == Authenticating && !c.socketUp then Disconnect(c)
    else if c.state == Authenticating && !c.recovering && o.timedOut then Disconnect(c)
    else if c.state == Established && o.stale then c.(socketUp := false, udpUp := false)
    else c
  }

  function Slice(c: Client): (r: Client)
    requires c.phase.Sleeping?
  {
    var left := if c.phase.slices > 1 then Sleeping(c.phase.slices - 1, c.phase.period) else Idle;
    var c := c.(backoff := c.backoff + c.phase.period / SLICES, phase := left);
    if c.cancelling then c.(recovering := false, recoverAttempt := 0, state := Disconnected, phase := Idle) else c
  }

  function Step(c: Client, e: Event): (r: Client) {
    match e
    case UserConnect(standalone, hasToken) => Connect(c, standalone, hasToken, false)
    case UserDisconnect => Disconnect(c)
    case CancelReconnect => c.(cancelling := true)
    case Suspend => c.(suspended := true)
    case Resume => c.(suspended := false)
    case SocketLost => c.(socketUp := false)
    case MainPass(o) => if c.phase.Idle? then Pass(c, o) else c
    case SleepSlice => if c.phase.Sleeping? then Slice(c) else c
    case PacketArrives(p) => OnPacket(c, p)
  }

  function After(c: Client, es: seq<Event>): (r: Client) {
    if es == [] then c else Step(After(c, es[..|es| - 1]), es[|es| - 1])
  }

  // ---------------------------------------------------------------- the object

  class NetworkManager {
    var state: ConnectionState
    var recovering: bool
    var recoverAttempt: nat
    var cancellingRecovery: bool
    var standalone: bool
    var wasFromRecovery: bool
    var socketUp: bool
    var udpUp: bool
    var suspended: bool
    var phase: Phase
    ghost var connects: nat
    ghost var backoff: nat

    ghost function View(): (c: Client) reads this {
      Client(state, recovering, recoverAttempt, cancellingRecovery, standalone, wasFromRecovery,
             socketUp, udpUp, suspended, phase, connects, backoff)
    }

    constructor ()
      ensures View() == INITIAL
    {
      state, recovering, recoverAttempt, cancellingRecovery := ConnectionState.Disconnected, false, 0, false;
      standalone, wasFromRecovery, socketUp, udpUp, suspended, phase := false, false, false, false, false, Idle;
      connects, backoff := 0, 0;
    }

    method DoDisconnect()
      modifies this
      ensures View() == Disconnect(old(View()))
    {
      state := ConnectionState.Disconnected;
      standalone := false;
      recovering := false;
      cancellingRecovery := false;
      recoverAttempt := 0;
      socketUp, udpUp := false, false;
    }

    /** False stands for the returned error. */
    method DoConnect(standalone: bool, hasToken: bool, fromRecovery: bool) returns (ok: bool)
      modifies this
      ensures View() == Connect(old(View()), standalone, hasToken, fromRecovery)
      ensures ok <==> (old(state) == ConnectionState.Disconnected || old(state) == Established) && (standalone || hasToken)
    {
      if state == Established { DoDisconnect(); }
      if state != ConnectionState.Disconnected { return false; }
      this.standalone := standalone;
      wasFromRecovery := fromRecovery;
      if !standalone && !hasToken { return false; }
      recovering := false;
      recoverAttempt := 0;
      state := TcpConnecting;
      return true;
    }

    method OnPacketArrives(p: Packet)
      modifies this
      ensures View() == OnPacket(old(View()), p)
    {
      if suspended || state == TcpConnecting { return; }
      var fromServer := socketUp || udpUp;
      if !fromServer { return; }
      match p
      case LoggedIn =>
        state := Established;
        if recovering || wasFromRecovery {
          recovering := false;
          recoverAttempt := 0;
        }
      case RecoveryFailed(hasToken) =>
        DoDisconnect();
        var ok := DoConnect(standalone, hasToken, true);
      case Rejected =>
        DoDisconnect();
      case Other =>
    }

    /** Give up after the last attempt, otherwise start the sleep before the next one. */
    method FailAttempt()
      requires phase.Idle?
      modifies this
      ensures View() == AttemptFailed(old(View()))
    {
      var attemptNumber := recoverAttempt + 1;
      recoverAttempt := attemptNumber;
      if attemptNumber > MAX_ATTEMPTS {
        recovering := false;
        recoverAttempt := 0;
        state := ConnectionState.Disconnected;
      } else {
        phase := Sleeping(SLICES, BASE_PERIOD * attemptNumber);
      }
    }

    /** The part of a pass that tries to recover. */
    method RecoverPass(o: Outcome)
      requires phase.Idle?
      modifies this
      ensures View() == RecoveryPass(old(View()), o)
    {
      hide AttemptFailed;
      connects := connects + 1;
      udpUp := udpUp || o.connectOk || o.udpLeft;
      var failed := false;
      if !o.connectOk {
        failed := true;
      } else {
        state := Authenticating;
        if !o.sendOk { failed := true; }
      }
      socketUp := !failed || o.tcpLeft;
      if failed { FailAttempt(); }
    }

    method ThreadMainPass(o: Outcome)
      requires phase.Idle?
      modifies this
      ensures View() == Pass(old(View()), o)
    {
      hide RecoveryPass;
      if suspended { return; }
      if state == TcpConnecting && !recovering {
        if !o.connectOk {
          DoDisconnect();
        } else {
          state, socketUp, udpUp := Authenticating, true, true;
        }
      } else if state == TcpConnecting && recovering {
        RecoverPass(o);
      } else if state == Established && !socketUp {
        state := TcpConnecting;
        recovering := true;
        cancellingRecovery := false;
        recoverAttempt := 0;
        connects, backoff := 0, 0;
      } else if state == Authenticating && !socketUp {
        DoDisconnect();
      } else if state == Authenticating && !recovering && o.timedOut {
        DoDisconnect();
      } else if state == Established && o.stale {
        socketUp, udpUp := false, false;
      }
    }

    method ThreadSleepSlice()
      requires phase.Sleeping?
      modifies this
      ensures View() == Slice(old(View()))
    {
      backoff := backoff + phase.period / SLICES;
      phase := if phase.slices > 1 then Sleeping(phase.slices - 1, phase.period) else Idle;
      if cancellingRecovery {
        recovering := false;
        recoverAttempt := 0;
        state := ConnectionState.Disconnected;
        phase := Idle;
      }
    }
  }

  // ---------------------------------------------------------------- every reachable state

  predicate Inv(c: Client) {
    && c.recoverAttempt <= MAX_ATTEMPTS
    && (c.recoverAttempt > 0 ==> c.recovering)
    && (c.recovering ==> c.state == TcpConnecting || c.state == Authenticating)
    && (c.phase.Sleeping? ==> 1 <= c.phase.slices <= SLICES && c.phase.period in {10000, 20000, 30000})
  }

  lemma {:induction false} StepKeepsInv(c: Client, e: Event)
    requires Inv(c)
    ensures Inv(Step(c, e))
  {
    if e.MainPass? && c.phase.Idle? {
      PassKeepsInv(c, e.outcome);
    } else if e.PacketArrives? {
      PacketKeepsInv(c, e.packet);
    }
    hide Pass, OnPacket;
  }

  lemma {:induction false} PacketKeepsInv(c: Client, p: Packet)
    requires Inv(c)
    ensures Inv(OnPacket(c, p))
  {
  }

  lemma {:induction false} PassKeepsInv(c: Client, o: Outcome)
    requires Inv(c) && c.phase.Idle?
    ensures Inv(Pass(c, o))
  {
    if c.state == TcpConnecting && c.recovering {
      RecoveryKeepsInv(c, o);
    }
    hide RecoveryPass;
  }

  lemma {:induction false} RecoveryKeepsInv(c: Client, o: Outcome)
    requires Inv(c) && c.phase.Idle? && c.recovering
    ensures Inv(RecoveryPass(c, o))
  {
    hide AttemptFailed;
    AttemptKeepsInv(Attempted(c, o));
  }

  lemma {:induction false} AttemptKeepsInv(c: Client)
    requires Inv(c) && c.recovering
    ensures Inv(AttemptFailed(c))
  {
    assert c.recoverAttempt < MAX_ATTEMPTS ==> BASE_PERIOD * (c.recoverAttempt + 1) in {10000, 20000, 30000};
  }

  lemma {:induction false} InvAlways(c: Client, es: seq<Event>)
    requires Inv(c)
    ensures Inv(After(c, es))
  {
    if es != [] {
      InvAlways(c, es[..|es| - 1]);
      StepKeepsInv(After(c, es[..|es| - 1]), es[|es| - 1]);
    }
  }

  /** In every state reachable from the start: at most three attempts, counted only while recovering, and so on. */
  lemma {:induction false} ReachableInv(es: seq<Event>)
    ensures Inv(After(INITIAL, es))
  {
    InvAlways(INITIAL, es);
  }

  // ---------------------------------------------------------------- the way to Established

  function At(c: Client, es: seq<Event>, k: nat): (r: Client)
    requires k <= |es|
  {
    After(c, es[..k])
  }

  lemma {:induction false} AtNext(c: Client, es: seq<Event>, k: nat)
    requires k < |es|
    ensures At(c, es, k + 1) == Step(At(c, es, k), es[k])
  {
    assert es[..k + 1][..k] == es[..k];
    hide Step;
  }

  lemma {:induction false} EnterEstablished(c: Client, e: Event)
    requires c.state != Established && Step(c, e).state == Established
    ensures e == PacketArrives(LoggedIn) && Hears(c)
  {
    if e.MainPass? { PassEnters(c, e.outcome); }
    hide Pass;
  }

  lemma {:induction false} EnterAuthenticating(c: Client, e: Event)
    requires c.state != Authenticating && Step(c, e).state == Authenticating
    ensures c.state == TcpConnecting && e.MainPass?
  {
    if e.MainPass? { PassEnters(c, e.outcome); }
    hide Pass;
  }

  /** What a pass can enter: Authenticating out of TcpConnecting, and never Established. */
  lemma {:induction false} PassEnters(c: Client, o: Outcome)
    ensures Pass(c, o).state == Authenticating ==> c.state == TcpConnecting || c.state == Authenticating
    ensures Pass(c, o).state == Established ==> c.state == Established
  {
    if c.state == TcpConnecting { RecoveryPassEnters(c, o); }
    hide RecoveryPass;
  }

  lemma {:induction false} RecoveryPassEnters(c: Client, o: Outcome)
    requires c.state == TcpConnecting
    ensures RecoveryPass(c, o).state != Established
  {
    FailedAttemptKeeps(Attempted(c, o));
    hide AttemptFailed;
  }

  lemma FailedAttemptKeeps(c: Client)
    ensures AttemptFailed(c).state == c.state || AttemptFailed(c).state == Disconnected
    ensures AttemptFailed(c).udpUp == c.udpUp && AttemptFailed(c).socketUp == c.socketUp
  {
  }

  lemma {:induction false} PathToAuthenticating(c: Client, es: seq<Event>, n: nat) returns (i: nat)
    requires n <= |es| && c.state == Disconnected && At(c, es, n).state == Authenticating
    ensures 0 < i < n && At(c, es, i).state == TcpConnecting
    decreases n
  {
    hide Step;
    assert n > 0 by { assert es[..0] == []; }
    AtNext(c, es, n - 1);
    if At(c, es, n - 1).state == Authenticating {
      i := PathToAuthenticating(c, es, n - 1);
    } else {
      EnterAuthenticating(At(c, es, n - 1), es[n - 1]);
      i := n - 1;
      assert i > 0 by { assert es[..0] == []; }
    }
  }

  /** The main thread gives a recovery up, or a cancel ends its sleep; neither disconnects the sockets. */
  predicate Abandons(c: Client, e: Event) {
    || (&& e.MainPass? && c.phase.Idle? && !c.suspended && c.state == TcpConnecting && c.recovering
        && c.recoverAttempt == MAX_ATTEMPTS && !(e.outcome.connectOk && e.outcome.sendOk))
    || (e.SleepSlice? && c.phase.Sleeping? && c.cancelling)
  }

  predicate NoneAbandoned(es: seq<Event>) {
    forall k :: 0 <= k < |es| ==> !Abandons(At(INITIAL, es, k), es[k])
  }

  /** Neither socket is connected. */
  predicate Deaf(c: Client) {
    !c.socketUp && !c.udpUp
  }

  lemma {:induction false} DeafStep(c: Client, e: Event)
    requires Inv(c) && (c.state == Disconnected ==> Deaf(c)) && !Abandons(c, e)
    ensures Step(c, e).state == Disconnected ==> Deaf(Step(c, e))
  {
    if e.MainPass? && c.phase.Idle? {
      DeafPass(c, e.outcome);
      hide Pass;
    } else {
      hide Pass;
    }
  }

  lemma {:induction false} DeafPass(c: Client, o: Outcome)
    requires Inv(c) && (c.state == Disconnected ==> Deaf(c)) && c.phase.Idle? && !Abandons(c, MainPass(o))
    ensures Pass(c, o).state == Disconnected ==> Deaf(Pass(c, o))
  {
    if c.state == TcpConnecting && c.recovering && !c.suspended {
      NotGivenUp(c, o);
    }
    hide RecoveryPass;
  }

  lemma NotGivenUp(c: Client, o: Outcome)
    requires Inv(c) && c.state == TcpConnecting && c.recovering
    requires c.recoverAttempt == MAX_ATTEMPTS ==> o.connectOk && o.sendOk
    ensures RecoveryPass(c, o).state != Disconnected
  {
  }

  /** Unless a recovery was abandoned, a disconnected client has no socket a packet could come from. */
  lemma {:induction false} DeafWhenDisconnected(es: seq<Event>, n: nat)
    requires n <= |es| && NoneAbandoned(es)
    ensures At(INITIAL, es, n).state == Disconnected ==> Deaf(At(INITIAL, es, n)) && !Hears(At(INITIAL, es, n))
    decreases n
  {
    hide Step, Abandons;
    if n == 0 {
      assert es[..0] == [];
    } else {
      ReachableInv(es[..n - 1]);
      DeafWhenDisconnected(es, n - 1);
      AtNext(INITIAL, es, n - 1);
      DeafStep(At(INITIAL, es, n - 1), es[n - 1]);
    }
  }

  /**
   Every run from the start to Established in which no recovery was abandoned passes through
   TcpConnecting, then Authenticating, and is completed there by a LoggedIn packet.
   */
  lemma {:induction false} PathToEstablished(es: seq<Event>, n: nat) returns (i: nat, j: nat)
    requires n <= |es| && NoneAbandoned(es) && At(INITIAL, es, n).state == Established
    ensures 0 < i < j < n && At(INITIAL, es, i).state == TcpConnecting && At(INITIAL, es, j).state == Authenticating
    ensures es[j] == PacketArrives(LoggedIn) && At(INITIAL, es, j + 1).state == Established
    decreases n
  {
    hide Step, NoneAbandoned;
    assert n > 0 by { assert es[..0] == []; }
    AtNext(INITIAL, es, n - 1);
    if At(INITIAL, es, n - 1).state == Established {
      i, j := PathToEstablished(es, n - 1);
    } else {
      EnterEstablished(At(INITIAL, es, n - 1), es[n - 1]);
      DeafWhenDisconnected(es, n - 1);
      j := n - 1;
      i := PathToAuthenticating(INITIAL, es, j);
    }
  }

  // ---------------------------------------------------------------- the exact condition

  datatype Socket = Tcp | Udp

  predicate Up(k: Socket, c: Client) {
    if k.Tcp? then c.socketUp else c.udpUp
  }

  /** A pass that tries to connect. */
  predicate Connecting(c: Client, e: Event) {
    e.MainPass? && c.phase.Idle? && !c.suspended && c.state == TcpConnecting
  }

  /** A pass after which the socket is connected, whether the connect as a whole worked or, in a recovery, left it so. */
  predicate Connects(k: Socket, c: Client, e: Event) {
    && Connecting(c, e)
    && (if !c.recovering then e.outcome.connectOk
        else if k.Tcp? then (e.outcome.connectOk && e.outcome.sendOk) || e.outcome.tcpLeft
        else e.outcome.connectOk || e.outcome.udpLeft)
  }

  /** An event that disconnects both sockets: the user's, a packet's, a failed first connect, or a timeout. */
  predicate Disconnects(c: Client, e: Event) {
    match e
    case UserDisconnect => true
    case UserConnect(_, _) => c.state == Established
    case PacketArrives(p) => Hears(c) && (p.RecoveryFailed? || p.Rejected?)
    case MainPass(o) =>
      && c.phase.Idle? && !c.suspended
      && (|| (c.state == TcpConnecting && !c.recovering && !o.connectOk)
          || (c.state == Authenticating && (!c.socketUp || (!c.recovering && o.timedOut)))
          || (c.state == Established && c.socketUp && o.stale))
    case _ => false
  }

  /** TCP is also lost by itself, and by a recovery that fails to connect. */
  predicate Drops(k: Socket, c: Client, e: Event) {
    Disconnects(c, e) || (k.Tcp? && (e.SocketLost? || (Connecting(c, e) && c.recovering && !Connects(Tcp, c, e))))
  }

  /** The socket was connected before the `n`-th event and nothing has disconnected it since. */
  predicate Left(k: Socket, es: seq<Event>, n: nat)
    requires n <= |es|
  {
    exists i :: 0 <= i < n && Connects(k, At(INITIAL, es, i), es[i]) && Kept(k, es, i + 1, n)
  }

  predicate Kept(k: Socket, es: seq<Event>, from: nat, to: nat)
    requires to <= |es|
  {
    forall j :: from <= j < to ==> !Drops(k, At(INITIAL, es, j), es[j])
  }

  /** A socket was left connected. */
  predicate SocketsLeft(es: seq<Event>, n: nat)
    requires n <= |es|
  {
    Left(Tcp, es, n) || Left(Udp, es, n)
  }

  lemma {:induction false} SocketStep(k: Socket, c: Client, e: Event)
    ensures Up(k, Step(c, e)) <==> Connects(k, c, e) || (Up(k, c) && !Drops(k, c, e))
  {
    if e.MainPass? && c.phase.Idle? {
      SocketPass(k, c, e.outcome);
      hide Pass;
    } else {
      hide Pass;
    }
  }

  lemma {:induction false} SocketPass(k: Socket, c: Client, o: Outcome)
    requires c.phase.Idle?
    ensures Up(k, Pass(c, o)) <==> Connects(k, c, MainPass(o)) || (Up(k, c) && !Drops(k, c, MainPass(o)))
  {
    SocketRecovery(c, o);
    hide RecoveryPass;
  }

  lemma {:induction false} SocketRecovery(c: Client, o: Outcome)
    ensures RecoveryPass(c, o).udpUp <==> c.udpUp || o.connectOk || o.udpLeft
    ensures RecoveryPass(c, o).socketUp <==> (o.connectOk && o.sendOk) || o.tcpLeft
  {
    FailedAttemptKeeps(Attempted(c, o));
    hide AttemptFailed;
  }

  lemma {:induction false} SocketExactly(k: Socket, es: seq<Event>, n: nat)
    requires n <= |es|
    ensures Up(k, At(INITIAL, es, n)) <==> Left(k, es, n)
    decreases n
  {
    hide Step, Connects, Drops;
    if n == 0 {
      assert es[..0] == [];
    } else {
      SocketExactly(k, es, n - 1);
      AtNext(INITIAL, es, n - 1);
      SocketStep(k, At(INITIAL, es, n - 1), es[n - 1]);
      hide At, Left, Up;
      LastConnect(k, es, n);
    }
  }

  /** A socket is left connected at `n` if it was connected right before, or was left and not dropped right before. */
  lemma {:induction false} LastConnect(k: Socket, es: seq<Event>, n: nat)
    requires 0 < n <= |es|
    ensures Left(k, es, n) <==>
            || Connects(k, At(INITIAL, es, n - 1), es[n - 1])
            || (Left(k, es, n - 1) && !Drops(k, At(INITIAL, es, n - 1), es[n - 1]))
  {
    hide At, Connects, Drops;
    if Connects(k, At(INITIAL, es, n - 1), es[n - 1]) {
      assert Kept(k, es, n, n);
    }
    if Left(k, es, n - 1) && !Drops(k, At(INITIAL, es, n - 1), es[n - 1]) {
      var i :| 0 <= i < n - 1 && Connects(k, At(INITIAL, es, i), es[i]) && Kept(k, es, i + 1, n - 1);
      assert Kept(k, es, i + 1, n);
    }
    if Left(k, es, n) && !Connects(k, At(INITIAL, es, n - 1), es[n - 1]) {
      var i :| 0 <= i < n && Connects(k, At(INITIAL, es, i), es[i]) && Kept(k, es, i + 1, n);
      assert Kept(k, es, i + 1, n - 1);
    }
  }

  /**
   The exact condition under which an event establishes a disconnected client: it is a LoggedIn
   packet, the client is not suspended, and one of its sockets was left connected.
   */
  lemma {:induction false} LoginWhileDisconnected(es: seq<Event>, n: nat)
    requires n < |es| && At(INITIAL, es, n).state == Disconnected
    ensures At(INITIAL, es, n + 1).state == Established <==>
            es[n] == PacketArrives(LoggedIn) && !At(INITIAL, es, n).suspended && SocketsLeft(es, n)
  {
    hide Left;
    AtNext(INITIAL, es, n);
    SocketExactly(Tcp, es, n);
    SocketExactly(Udp, es, n);
    hide At;
    EstablishDisconnected(At(INITIAL, es, n), es[n]);
  }

  lemma {:induction false} EstablishDisconnected(c: Client, e: Event)
    requires c.state == Disconnected
    ensures Step(c, e).state == Established <==> e == PacketArrives(LoggedIn) && Hears(c)
  {
    if e.MainPass? { PassDisconnected(c, e.outcome); }
    hide Pass;
  }

  lemma PassDisconnected(c: Client, o: Outcome)
    requires c.state == Disconnected
    ensures Pass(c, o) == c
  {
  }

  predicate Enters(es: seq<Event>, n: nat)
    requires n < |es|
  {
    At(INITIAL, es, n).state != Established && At(INITIAL, es, n + 1).state == Established
  }

  /** A LoggedIn packet reaches a client that is disconnected but has a socket left. */
  predicate Stray(es: seq<Event>, n: nat)
    requires n < |es|
  {
    && At(INITIAL, es, n).state == Disconnected && es[n] == PacketArrives(LoggedIn)
    && !At(INITIAL, es, n).suspended && SocketsLeft(es, n)
  }

  /** For every run: each way into Established leads out of Authenticating if and only if no stray login arrives. */
  lemma {:induction false} EveryEntryExactly(es: seq<Event>)
    ensures (forall n | 0 <= n < |es| && Enters(es, n) :: At(INITIAL, es, n).state == Authenticating) <==>
            (forall n | 0 <= n < |es| :: !Stray(es, n))
  {
    forall n | 0 <= n < |es|
      ensures Enters(es, n) && At(INITIAL, es, n).state != Authenticating <==> Stray(es, n)
    {
      EntryExactly(es, n);
    }
  }

  lemma {:induction false} EntryExactly(es: seq<Event>, n: nat)
    requires n < |es|
    ensures Enters(es, n) && At(INITIAL, es, n).state != Authenticating <==> Stray(es, n)
  {
    hide Step, SocketsLeft;
    AtNext(INITIAL, es, n);
    if Enters(es, n) { EnterEstablished(At(INITIAL, es, n), es[n]); }
    if At(INITIAL, es, n).state == Disconnected { LoginWhileDisconnected(es, n); }
  }

  lemma {:induction false} Then(es: seq<Event>, e: Event)
    ensures After(INITIAL, es + [e]) == Step(After(INITIAL, es), e)
  {
    hide Step;
    assert (es + [e])[..|es|] == es;
  }

  const WORKS := Outcome(true, true, false, false, false, false)
  const FAILS := Outcome(false, false, false, false, false, false)
  const STALE := Outcome(false, false, false, false, false, true)

  const CONNECTING := INITIAL.(state := TcpConnecting, standalone := true)
  const CONNECTED := CONNECTING.(state := Authenticating, socketUp := true, udpUp := true)
  const LOST := CONNECTED.(state := Established, socketUp := false)
  const RECOVERING := LOST.(state := TcpConnecting, recovering := true)

  lemma ConnectSteps()
    ensures Step(INITIAL, UserConnect(true, false)) == CONNECTING && Step(CONNECTING, MainPass(WORKS)) == CONNECTED
  {
  }

  const ONLINE := CONNECTED.(state := Established)
  const TIMED_OUT := RECOVERING.(udpUp := false)

  lemma LossSteps()
    ensures Step(CONNECTED, PacketArrives(LoggedIn)) == ONLINE
    ensures Step(ONLINE, SocketLost) == LOST && Step(LOST, MainPass(FAILS)) == RECOVERING
    ensures Step(Step(ONLINE, MainPass(STALE)), MainPass(FAILS)) == TIMED_OUT
  {
  }

  lemma {:induction false} GoOnline() returns (es: seq<Event>)
    ensures After(INITIAL, es) == ONLINE
  {
    assert After(INITIAL, []) == INITIAL;
    hide Step, After;
    ConnectSteps();
    LossSteps();
    Then([], UserConnect(true, false));
    es := [] + [UserConnect(true, false)];
    Then(es, MainPass(WORKS));
    es := es + [MainPass(WORKS)];
    Then(es, PacketArrives(LoggedIn));
    es := es + [PacketArrives(LoggedIn)];
  }

  lemma {:induction false} LoseConnection() returns (es: seq<Event>)
    ensures After(INITIAL, es) == RECOVERING
  {
    hide Step, After;
    LossSteps();
    es := GoOnline();
    Then(es, SocketLost);
    es := es + [SocketLost];
    Then(es, MainPass(FAILS));
    es := es + [MainPass(FAILS)];
  }

  lemma {:induction false} TimeOut() returns (es: seq<Event>)
    ensures After(INITIAL, es) == TIMED_OUT
  {
    hide Step, After;
    LossSteps();
    es := GoOnline();
    Then(es, MainPass(STALE));
    es := es + [MainPass(STALE)];
    Then(es, MainPass(FAILS));
    es := es + [MainPass(FAILS)];
  }

  function Cancelled(c: Client): (d: Client) {
    Step(Step(Step(c, CancelReconnect), MainPass(FAILS)), SleepSlice)
  }

  lemma CancelSteps()
    ensures Cancelled(RECOVERING).state == Disconnected && !Cancelled(RECOVERING).suspended && Cancelled(RECOVERING).udpUp
    ensures Cancelled(TIMED_OUT).state == Disconnected && Deaf(Cancelled(TIMED_OUT))
  {
  }

  lemma {:induction false} CancelIt(h: seq<Event>) returns (es: seq<Event>)
    ensures After(INITIAL, es) == Cancelled(After(INITIAL, h))
  {
    hide Step, After;
    es := h;
    Then(es, CancelReconnect);
    es := es + [CancelReconnect];
    Then(es, MainPass(FAILS));
    es := es + [MainPass(FAILS)];
    Then(es, SleepSlice);
    es := es + [SleepSlice];
  }

  /** Stray logins can happen: a lost connection, a cancelled recovery, and then the packet. */
  lemma {:induction false} LoginOutOfNowhere() returns (es: seq<Event>)
    ensures es != [] && Stray(es, |es| - 1) && After(INITIAL, es).state == Established
  {
    hide Step, After, Left, Cancelled;
    CancelSteps();
    var h := LoseConnection();
    h := CancelIt(h);
    es := h + [PacketArrives(LoggedIn)];
    var n := |h|;
    assert es[..n] == h && es[..n + 1] == es;
    SocketExactly(Udp, es, n);
    LoginWhileDisconnected(es, n);
  }

  /** Not so after a timeout, which disconnects both sockets: in the same run the login is not heard. */
  lemma {:induction false} LoginAfterTimeout() returns (es: seq<Event>)
    ensures es != [] && es[|es| - 1] == PacketArrives(LoggedIn) && !SocketsLeft(es, |es| - 1)
    ensures After(INITIAL, es) == After(INITIAL, es[..|es| - 1]) && After(INITIAL, es).state == Disconnected
  {
    CancelSteps();
    UnheardStep(Cancelled(TIMED_OUT), LoggedIn);
    hide Step, After, Left, Cancelled;
    var h := TimeOut();
    h := CancelIt(h);
    Then(h, PacketArrives(LoggedIn));
    es := h + [PacketArrives(LoggedIn)];
    var n := |h|;
    assert es[..n] == h;
    SocketExactly(Tcp, es, n);
    SocketExactly(Udp, es, n);
  }

  lemma UnheardStep(c: Client, p: Packet)
    requires !Hears(c)
    ensures Step(c, PacketArrives(p)) == c
  {
  }

  lemma AwaitSteps()
    ensures
      var c := Step(RECOVERING, MainPass(WORKS));
      c.recovering && Awaiting(c) && Hears(c) && c.standalone
  {
  }

  /** A recovery does come to await the server's answer, also in standalone mode: where cancels and the mode are lost. */
  lemma {:induction false} AwaitingHappens() returns (es: seq<Event>)
    ensures
      var c := After(INITIAL, es);
      c.recovering && Awaiting(c) && Hears(c) && c.standalone
  {
    AwaitSteps();
    hide Step, After, Awaiting, Hears;
    es := LoseConnection();
    Then(es, MainPass(WORKS));
    es := es + [MainPass(WORKS)];
  }

  // ---------------------------------------------------------------- the end of a connection

  /** Disconnected, with nothing left of the connection. */
  predicate Closed(c: Client) {
    c.state == Disconnected && !c.recovering && c.recoverAttempt == 0 && !c.standalone && Deaf(c)
  }

  /**
   What ends a connection, or an attempt at one: the user, also by connecting again without a
   token; a rejection, or a refused recovery without a token; a first connect that fails, and a
   loss or the five seconds while authenticating.
   */
  predicate Ends(c: Client, e: Event) {
    match e
    case UserDisconnect => true
    case UserConnect(standalone, hasToken) => c.state == Established && !standalone && !hasToken
    case PacketArrives(p) => Hears(c) && (p == Rejected || p == RecoveryFailed(false))
    case MainPass(o) =>
      && c.phase.Idle? && !c.suspended
      && (|| (c.state == TcpConnecting && !c.recovering && !o.connectOk)
          || (c.state == Authenticating && (!c.socketUp || (!c.recovering && o.timedOut))))
    case _ => false
  }

  lemma {:induction false} EndCloses(c: Client, e: Event)
    requires Ends(c, e)
    ensures Closed(Step(c, e))
  {
    hide RecoveryPass;
  }

  lemma {:induction false} StaysClosed(c: Client, e: Event)
    requires Closed(c) && !e.UserConnect?
    ensures Closed(Step(c, e))
  {
    if e.MainPass? { PassDisconnected(c, e.outcome); }
    hide Pass;
  }

  /**
   Whatever ended the connection, the client is Disconnected afterwards, recovers nothing and has
   no socket, and stays so through any run in which the user does not connect.
   */
  lemma {:induction false} EndedForGood(es: seq<Event>, n: nat, m: nat)
    requires n < m <= |es| && Ends(At(INITIAL, es, n), es[n])
    requires forall k | n < k < m :: !es[k].UserConnect?
    ensures Closed(At(INITIAL, es, m))
    decreases m
  {
    hide Step, Ends, Closed, At;
    AtNext(INITIAL, es, m - 1);
    if m == n + 1 {
      EndCloses(At(INITIAL, es, n), es[n]);
    } else {
      EndedForGood(es, n, m - 1);
      StaysClosed(At(INITIAL, es, m - 1), es[m - 1]);
    }
  }

  /** What starts a connection: the user, with a token or in standalone mode; the fallback; and the loss of an established one. */
  predicate StartsConnecting(c: Client, e: Event) {
    match e
    case UserConnect(standalone, hasToken) => (c.state == Disconnected || c.state == Established) && (standalone || hasToken)
    case PacketArrives(p) => Hears(c) && p == RecoveryFailed(true)
    case MainPass(_) => c.phase.Idle? && !c.suspended && c.state == Established && !c.socketUp
    case _ => false
  }

  /** A connect that works, of a recovery even if the send behind it fails, unless that was the last attempt. */
  predicate StartsAuthenticating(c: Client, e: Event) {
    && Connecting(c, e) && e.outcome.connectOk
    && (c.recovering ==> e.outcome.sendOk || c.recoverAttempt < MAX_ATTEMPTS)
  }

  /** `c` turns into `d` as these events say. */
  predicate MovesAs(c: Client, e: Event, d: Client) {
    && (c.state != TcpConnecting && d.state == TcpConnecting <==> StartsConnecting(c, e))
    && (c.state != Authenticating && d.state == Authenticating <==> StartsAuthenticating(c, e))
    && (c.state != Established && d.state == Established <==> c.state != Established && e == PacketArrives(LoggedIn) && Hears(c))
    && (c.state != Disconnected && d.state == Disconnected <==> c.state != Disconnected && (Ends(c, e) || Abandons(c, e)))
  }

  /**
   Every change of state in every run: exactly these events start a connection, exactly a connect
   that works leads on to Authenticating, exactly a heard LoggedIn packet to Established, and
   exactly an end or an abandoned recovery back to Disconnected.
   */
  lemma {:induction false} MovesExactly(es: seq<Event>, n: nat)
    requires n < |es|
    ensures MovesAs(At(INITIAL, es, n), es[n], At(INITIAL, es, n + 1))
  {
    hide Step, After, MovesAs;
    AtNext(INITIAL, es, n);
    ReachableInv(es[..n]);
    StepMoves(After(INITIAL, es[..n]), es[n]);
  }

  lemma {:induction false} StepMoves(c: Client, e: Event)
    requires Inv(c)
    ensures MovesAs(c, e, Step(c, e))
  {
    if e.MainPass? && c.phase.Idle? {
      PassMoves(c, e.outcome);
    } else if e.PacketArrives? {
      PacketMoves(c, e.packet);
    }
    hide Pass, OnPacket;
  }

  lemma {:induction false} PacketMoves(c: Client, p: Packet)
    requires Inv(c)
    ensures MovesAs(c, PacketArrives(p), OnPacket(c, p))
  {
  }

  lemma {:induction false} PassMoves(c: Client, o: Outcome)
    requires Inv(c) && c.phase.Idle?
    ensures MovesAs(c, MainPass(o), Pass(c, o))
  {
    if c.state == TcpConnecting && c.recovering { RecoveryMoves(c, o); }
    hide RecoveryPass;
  }

  lemma RecoveryMoves(c: Client, o: Outcome)
    requires Inv(c) && c.state == TcpConnecting && c.recovering
    ensures
      var last := c.recoverAttempt == MAX_ATTEMPTS;
      RecoveryPass(c, o).state ==
        if !(o.connectOk && o.sendOk) && last then Disconnected else if o.connectOk then Authenticating else TcpConnecting
  {
  }

  // ---------------------------------------------------------------- suspending

  /** The client is suspended exactly if the last of these requests was to suspend it. */
  lemma {:induction false} SuspendedExactly(es: seq<Event>)
    ensures After(INITIAL, es).suspended <==>
            exists k :: 0 <= k < |es| && es[k] == Suspend && forall j | k < j < |es| :: es[j] != Resume
  {
    if es != [] {
      var n := |es| - 1;
      var h := es[..n];
      SuspendedExactly(h);
      SuspendStep(After(INITIAL, h), es[n]);
      hide Step;
      if k :| 0 <= k < n && h[k] == Suspend && forall j | k < j < n :: h[j] != Resume {
        assert es[k] == Suspend && forall j | k < j < n :: es[j] == h[j];
      }
      if k :| 0 <= k < n && es[k] == Suspend && forall j | k < j < |es| :: es[j] != Resume {
        assert h[k] == Suspend && forall j | k < j < n :: h[j] == es[j];
      }
    }
  }

  lemma {:induction false} SuspendStep(c: Client, e: Event)
    ensures Step(c, e).suspended <==> e == Suspend || (c.suspended && e != Resume)
  {
    if e.MainPass? && c.state == TcpConnecting { AttemptKeepsRest(Attempted(c, e.outcome)); }
    hide AttemptFailed;
  }

  lemma AttemptKeepsRest(c: Client)
    ensures AttemptFailed(c).suspended == c.suspended && AttemptFailed(c).standalone == c.standalone && AttemptFailed(c).cancelling == c.cancelling
  {
  }

  /** A request to connect that sets the mode, whether or not it is refused for want of a token. */
  predicate Chooses(c: Client, e: Event) {
    e.UserConnect? && (c.state == Disconnected || c.state == Established)
  }

  /** The mode is forgotten: with the connection, or before the fallback. */
  predicate Forgets(c: Client, e: Event) {
    Ends(c, e) || (e.PacketArrives? && e.packet.RecoveryFailed? && Hears(c))
  }

  /** The mode was chosen before the `n`-th event and is in force. */
  predicate StandaloneChosen(es: seq<Event>, n: nat, k: nat)
    requires k < n <= |es|
  {
    && Chooses(At(INITIAL, es, k), es[k]) && es[k].standalone
    && forall j | k < j < n :: !SetsMode(es, j)
  }

  predicate SetsMode(es: seq<Event>, j: nat)
    requires j < |es|
  {
    Chooses(At(INITIAL, es, j), es[j]) || Forgets(At(INITIAL, es, j), es[j])
  }

  /** Standalone mode is on exactly from the request that chose it to the next one, or to the end of the connection. */
  lemma {:induction false} StandaloneExactly(es: seq<Event>, n: nat)
    requires n <= |es|
    ensures At(INITIAL, es, n).standalone <==> exists k :: 0 <= k < n && StandaloneChosen(es, n, k)
    decreases n
  {
    hide Step, Chooses, Forgets;
    if n == 0 {
      assert es[..0] == [];
    } else {
      var m := n - 1;
      StandaloneExactly(es, m);
      AtNext(INITIAL, es, m);
      ModeStep(At(INITIAL, es, m), es[m]);
      hide At;
      if k :| 0 <= k < m && StandaloneChosen(es, m, k) { assert StandaloneChosen(es, n, k) <==> !SetsMode(es, m); }
      if k :| 0 <= k < m && StandaloneChosen(es, n, k) { assert StandaloneChosen(es, m, k); }
      ChosenNow(es, m);
    }
  }

  lemma {:induction false} ChosenNow(es: seq<Event>, n: nat)
    requires n < |es|
    ensures StandaloneChosen(es, n + 1, n) <==> Chooses(At(INITIAL, es, n), es[n]) && es[n].standalone
  {
    hide At, Chooses;
  }

  lemma {:induction false} ModeStep(c: Client, e: Event)
    ensures Step(c, e).standalone <==>
            if Chooses(c, e) then e.standalone else c.standalone && !Forgets(c, e)
  {
    if e.MainPass? && c.state == TcpConnecting { AttemptKeepsRest(Attempted(c, e.outcome)); }
    hide AttemptFailed;
  }

  /** A suspended client stands still, whatever passes and packets come, until it is resumed or the user acts. */
  lemma {:induction false} SuspendedStandsStill(c: Client, es: seq<Event>)
    requires c.suspended && forall e | e in es :: e.MainPass? || e.PacketArrives? || e == Suspend
    ensures After(c, es) == c
  {
    if es != [] {
      var n := |es| - 1;
      assert es[n] in es;
      SuspendedStandsStill(c, es[..n]);
      StandsStill(c, es[n]);
      hide Step;
    }
  }

  lemma StandsStill(c: Client, e: Event)
    requires c.suspended && (e.MainPass? || e.PacketArrives? || e == Suspend)
    ensures Step(c, e) == c
  {
  }

  // ---------------------------------------------------------------- recovery gives up

  /** An event that neither helps nor stops a recovery: anything but a cancel, a disconnect or a successful connect. */
  predicate Adverse(e: Event) {
    !e.CancelReconnect? && !e.UserDisconnect? && (e.MainPass? ==> !e.outcome.connectOk)
  }

  /** In a recovery of which `c.recoverAttempt` attempts have failed, with the sleep so far accounted for. */
  predicate InRecovery(c: Client) {
    var a := c.recoverAttempt;
    && c.state == TcpConnecting && c.recovering && !c.cancelling
    && a <= MAX_ATTEMPTS && c.connects == a
    && (match c.phase
        case Idle => c.backoff == Slept(a)
        case Sleeping(n, p) => a >= 1 && 1 <= n <= SLICES && p == BASE_PERIOD * a && c.backoff + n * (p / SLICES) == Slept(a))
  }

  /** Milliseconds of back-off after `a` failed attempts. */
  function Slept(a: nat): (ms: nat)
    requires a <= MAX_ATTEMPTS
  {
    [0, 10000, 30000, 60000][a]
  }

  predicate GaveUp(c: Client) {
    c.state == Disconnected && !c.recovering && c.recoverAttempt == 0 && c.connects == 4 && c.backoff == 60000
  }

  /** Steps of the main thread still to come before it gives up. */
  function Remaining(c: Client): (n: nat)
    requires InRecovery(c)
    ensures n >= 1
  {
    (4 - c.recoverAttempt) + SLICES * (MAX_ATTEMPTS - c.recoverAttempt) + if c.phase.Idle? then 0 else c.phase.slices
  }

  predicate Effective(c: Client, e: Event) {
    (e.MainPass? && c.phase.Idle? && !c.suspended) || (e.SleepSlice? && c.phase.Sleeping?)
  }

  lemma LossStartsRecovery(c: Client, o: Outcome)
    requires c.state == Established && !c.socketUp && !c.suspended && c.phase.Idle?
    ensures InRecovery(Step(c, MainPass(o))) && Remaining(Step(c, MainPass(o))) == 154
  {
  }

  lemma {:induction false} RecoveryStep(c: Client, e: Event)
    requires InRecovery(c) && Adverse(e)
    ensures !Effective(c, e) ==> InRecovery(Step(c, e)) && Remaining(Step(c, e)) == Remaining(c)
    ensures Effective(c, e) && Remaining(c) > 1 ==> InRecovery(Step(c, e)) && Remaining(Step(c, e)) == Remaining(c) - 1
    ensures Effective(c, e) && Remaining(c) == 1 ==> GaveUp(Step(c, e))
  {
    if Effective(c, e) {
      if e.SleepSlice? { SliceInRecovery(c); } else { PassInRecovery(c, e.outcome); }
    }
  }

  lemma {:induction false} SliceInRecovery(c: Client)
    requires InRecovery(c) && c.phase.Sleeping?
    ensures InRecovery(Slice(c)) && Remaining(Slice(c)) == Remaining(c) - 1
  {
    assert c.recoverAttempt == 1 || c.recoverAttempt == 2 || c.recoverAttempt == 3;
  }

  lemma {:induction false} PassInRecovery(c: Client, o: Outcome)
    requires InRecovery(c) && c.phase.Idle? && !c.suspended && !o.connectOk
    ensures Remaining(c) > 1 ==> InRecovery(Pass(c, o)) && Remaining(Pass(c, o)) == Remaining(c) - 1
    ensures Remaining(c) == 1 ==> GaveUp(Pass(c, o))
  {
    assert c.recoverAttempt == 0 || c.recoverAttempt == 1 || c.recoverAttempt == 2 || c.recoverAttempt == 3;
  }

  /** Events applied from the front, for counting. */
  function EffectiveCount(c: Client, es: seq<Event>): (n: nat)
    decreases |es|
  {
    if es == [] then 0
    else (if Effective(c, es[0]) then 1 else 0) + EffectiveCount(Step(c, es[0]), es[1..])
  }

  lemma {:induction false} AfterFront(c: Client, es: seq<Event>)
    requires es != []
    ensures After(c, es) == After(Step(c, es[0]), es[1..])
  {
    hide Step;
    if |es| > 1 {
      var h := es[..|es| - 1];
      AfterFront(c, h);
      assert es[1..][..|es[1..]| - 1] == h[1..];
    }
  }

  /**
   If every TCP connect of a recovery fails, then, whatever else happens short of a cancel or
   a disconnect, the client stays in recovery until the main thread has taken exactly
   `Remaining` steps and is then Disconnected, after four connects and 60 seconds of sleep.
   */
  lemma {:induction false} RecoveryGivesUp(c: Client, es: seq<Event>) returns (k: nat)
    requires InRecovery(c) && forall e | e in es :: Adverse(e)
    ensures k <= |es| && Recovering(c, es, k)
    ensures EffectiveCount(c, es) < Remaining(c) ==> k == |es| && InRecovery(After(c, es))
    ensures EffectiveCount(c, es) >= Remaining(c) ==> GaveUp(After(c, es[..k])) && EffectiveCount(c, es[..k]) == Remaining(c)
    decreases |es|
  {
    if es == [] {
      k := 0;
    } else {
      var d, rest := Step(c, es[0]), es[1..];
      RecoveryStep(c, es[0]);
      hide Step, InRecovery, GaveUp, Remaining, Effective, Recovering, After, Adverse;
      AfterFront(c, es);
      if GaveUp(d) && !InRecovery(d) {
        k := 1;
        OneStep(c, es);
        RecoveringOnce(c, es);
      } else {
        var m := RecoveryGivesUp(d, rest);
        k := m + 1;
        AfterFront(c, es[..k]);
        assert es[..k][1..] == rest[..m];
        RecoveringFront(c, es, m);
      }
    }
  }

  /** The recovery is on before each of the first `k` events. */
  predicate Recovering(c: Client, es: seq<Event>, k: nat)
    requires k <= |es|
  {
    forall j :: 0 <= j < k ==> InRecovery(After(c, es[..j]))
  }

  lemma {:induction false} RecoveringOnce(c: Client, es: seq<Event>)
    requires es != [] && InRecovery(c)
    ensures Recovering(c, es, 1)
  {
    hide InRecovery;
    assert After(c, es[..0]) == c;
  }

  lemma {:induction false} RecoveringFront(c: Client, es: seq<Event>, m: nat)
    requires m < |es| && InRecovery(c) && Recovering(Step(c, es[0]), es[1..], m)
    ensures Recovering(c, es, m + 1)
  {
    hide InRecovery, Step;
    assert After(c, es[..0]) == c;
    forall j | 0 < j < m + 1
      ensures After(c, es[..j]) == After(Step(c, es[0]), es[1..][..j - 1])
    {
      AfterFront(c, es[..j]);
      assert es[..j][1..] == es[1..][..j - 1];
    }
  }

  lemma {:induction false} OneStep(c: Client, es: seq<Event>)
    requires es != []
    ensures After(c, es[..1]) == Step(c, es[0])
    ensures EffectiveCount(c, es[..1]) == if Effective(c, es[0]) then 1 else 0
  {
    hide Step, Effective;
    assert es[..1][..0] == [] && es[..1][1..] == [];
  }

  // ---------------------------------------------------------------- cancelling

  /** Neither a connect nor anything that disconnects. */
  predicate Calm(e: Event) {
    !e.UserConnect? && !e.UserDisconnect? && (e.PacketArrives? ==> e.packet.LoggedIn? || e.packet.Other?)
  }

  /** `w` is a recovery cancelled in `c`, untouched by the main thread; at most a login has completed it. */
  predicate StillCancelled(c: Client, w: Client) {
    && w.cancelling && w.phase == c.phase && w.recoverAttempt <= c.recoverAttempt
    && (if w.recovering then w.state == c.state && w.recoverAttempt == c.recoverAttempt
        else c.state == Authenticating && w.state == Established)
  }

  lemma CancelledStep(c: Client, w: Client, e: Event)
    requires c.recovering && Inv(c) && StillCancelled(c, w) && Calm(e) && !Effective(w, e)
    ensures StillCancelled(c, Step(w, e))
  {
  }

  lemma {:induction false} CancelPersists(c: Client, es: seq<Event>)
    requires c.recovering && Inv(c)
    requires forall k :: 0 <= k < |es| ==> Calm(es[k]) && !Effective(At(Step(c, CancelReconnect), es, k), es[k])
    ensures StillCancelled(c, After(Step(c, CancelReconnect), es))
  {
    if es != [] {
      var d, n := Step(c, CancelReconnect), |es| - 1;
      hide Step, StillCancelled, Effective, Calm;
      var h := es[..n];
      forall k | 0 <= k < n
        ensures At(d, h, k) == At(d, es, k)
      {
        assert h[..k] == es[..k];
      }
      CancelPersists(c, h);
      CancelledStep(c, After(d, h), es[n]);
    }
  }

  /** The next turn of the main thread: a slice if it sleeps, else a pass with the first slice of the sleep it may start. */
  function Turn(c: Client, o: Outcome): (r: Client) {
    if c.phase.Sleeping? then Slice(c)
    else
      var d := Pass(c, o);
      if d.phase.Sleeping? then Slice(d) else d
  }

  /** The recovery waits for the server's answer. */
  predicate Awaiting(c: Client) {
    c.phase.Idle? && c.state == Authenticating && c.socketUp
  }

  lemma {:induction false} CancelledTurn(c: Client, w: Client, o: Outcome)
    requires c.recovering && Inv(c) && Inv(w) && StillCancelled(c, w) && w.recovering && !w.suspended
    ensures Turn(w, o) == w <==> Awaiting(w)
    ensures !Awaiting(w) ==>
              || (Turn(w, o).state == Disconnected && !Turn(w, o).recovering && Turn(w, o).phase.Idle?)
              || (w.state == TcpConnecting && Turn(w, o).state == Authenticating && Turn(w, o).phase.Idle?)
  {
    if w.phase.Idle? && w.state == TcpConnecting {
      hide Inv;
    }
  }

  /**
   A cancel during recovery, then any events short of a connect or a disconnect, then the next
   turn of the main thread: the recovery is over, or its connect has just succeeded, exactly when
   it was not awaiting the server's answer. While it is, the cancel changes nothing.
   */
  lemma {:induction false} CancelEndsRecovery(c: Client, es: seq<Event>, o: Outcome)
    requires c.recovering && Inv(c)
    requires forall k :: 0 <= k < |es| ==> Calm(es[k]) && !Effective(At(Step(c, CancelReconnect), es, k), es[k])
    requires !After(Step(c, CancelReconnect), es).suspended
    ensures
      var w := After(Step(c, CancelReconnect), es);
      && (!w.recovering ==> c.state == Authenticating && w.state == Established)
      && (w.recovering ==>
            && (Turn(w, o) == w <==> Awaiting(w))
            && (!Awaiting(w) ==>
                  || (Turn(w, o).state == Disconnected && !Turn(w, o).recovering && Turn(w, o).phase.Idle?)
                  || (w.state == TcpConnecting && Turn(w, o).state == Authenticating && Turn(w, o).phase.Idle?)))
  {
    var d := Step(c, CancelReconnect);
    assert Inv(d);
    CancelPersists(c, es);
    InvAlways(d, es);
    hide Step, Turn, After, Inv, Effective, Calm;
    if After(d, es).recovering { CancelledTurn(c, After(d, es), o); }
  }

  /** Anything that does not end the wait for the server's answer. */
  predicate Idles(e: Event) {
    e.MainPass? || e.SleepSlice? || e.CancelReconnect? || e.Suspend? || e.Resume? || e.UserConnect? || e == PacketArrives(Other)
  }

  lemma IdlesStep(c: Client, e: Event)
    requires c.recovering && Awaiting(c) && Idles(e)
    ensures
      var d := Step(c, e);
      d.recovering && Awaiting(d) && (d.cancelling <==> c.cancelling || e == CancelReconnect)
  {
  }

  /** The ignored cancel: while the answer is awaited, passes with any outcome and any number of cancels leave it so. */
  lemma {:induction false} CancelIgnored(c: Client, es: seq<Event>)
    requires c.recovering && Awaiting(c) && forall e | e in es :: Idles(e)
    ensures
      var d := After(c, es);
      d.recovering && Awaiting(d) && (d.cancelling <==> c.cancelling || CancelReconnect in es)
  {
    if es != [] {
      hide Step, Awaiting, Idles;
      var n := |es| - 1;
      CancelIgnored(c, es[..n]);
      assert es == es[..n] + [es[n]];
      IdlesStep(After(c, es[..n]), es[n]);
    }
  }

  /** What forgets a cancel: the end of the connection, the fallback, a new connect, and the loss that starts a recovery. */
  predicate Uncancels(c: Client, e: Event) {
    || Forgets(c, e) || (e.UserConnect? && c.state == Established)
    || (e.MainPass? && c.phase.Idle? && !c.suspended && c.state == Established && !c.socketUp)
  }

  predicate UncancelsAt(es: seq<Event>, j: nat)
    requires j < |es|
  {
    Uncancels(At(INITIAL, es, j), es[j])
  }

  predicate CancelStands(es: seq<Event>, n: nat, k: nat)
    requires k < n <= |es|
  {
    es[k] == CancelReconnect && forall j | k < j < n :: !UncancelsAt(es, j)
  }

  /** In every run the flag is up exactly if it was asked for, at whatever time, and not forgotten since. */
  lemma {:induction false} CancelExactly(es: seq<Event>, n: nat)
    requires n <= |es|
    ensures At(INITIAL, es, n).cancelling <==> exists k :: 0 <= k < n && CancelStands(es, n, k)
    decreases n
  {
    hide Step, Uncancels;
    if n == 0 {
      assert es[..0] == [];
    } else {
      var m := n - 1;
      CancelExactly(es, m);
      AtNext(INITIAL, es, m);
      CancelStep(At(INITIAL, es, m), es[m]);
      hide At;
      if k :| 0 <= k < m && CancelStands(es, m, k) { assert CancelStands(es, n, k) <==> !UncancelsAt(es, m); }
      if k :| 0 <= k < m && CancelStands(es, n, k) { assert CancelStands(es, m, k); }
      CancelNow(es, m);
    }
  }

  lemma {:induction false} CancelNow(es: seq<Event>, n: nat)
    requires n < |es|
    ensures CancelStands(es, n + 1, n) <==> es[n] == CancelReconnect
  {
    hide UncancelsAt;
  }

  lemma {:induction false} CancelStep(c: Client, e: Event)
    ensures Step(c, e).cancelling <==> e == CancelReconnect || (c.cancelling && !Uncancels(c, e))
  {
    if e.MainPass? && c.state == TcpConnecting { AttemptKeepsRest(Attempted(c, e.outcome)); }
    hide AttemptFailed;
  }

  lemma {:induction false} CancelOnlyOnRequest(c: Client, es: seq<Event>)
    requires !c.cancelling && CancelReconnect !in es
    ensures !After(c, es).cancelling
  {
    if es != [] {
      hide Step;
      CancelOnlyOnRequest(c, es[..|es| - 1]);
      assert es[|es| - 1] in es;
      NoCancelStep(After(c, es[..|es| - 1]), es[|es| - 1]);
    }
  }

  lemma {:induction false} NoCancelStep(c: Client, e: Event)
    requires !c.cancelling && e != CancelReconnect
    ensures !Step(c, e).cancelling
  {
    if e.MainPass? { NoCancelPass(c, e.outcome); }
    hide Pass;
  }

  lemma NoCancelPass(c: Client, o: Outcome)
    requires !c.cancelling
    ensures !Pass(c, o).cancelling
  {
  }

  /** A cancel issued before the connection was lost, at whatever time, never aborts the later recovery. */
  lemma {:induction false} OldCancelIsForgotten(c: Client, o: Outcome, es: seq<Event>)
    requires c.state == Established && !c.socketUp && !c.suspended && c.phase.Idle?
    requires CancelReconnect !in es
    ensures !After(Step(c, MainPass(o)), es).cancelling
  {
    CancelOnlyOnRequest(Step(c, MainPass(o)), es);
  }

  // ---------------------------------------------------------------- the fallback after a failed recovery

  /**
   When the server refuses a recovery the client falls back to a regular connection. `disconnect`
   has cleared `standalone` by then, so the fallback keeps the mode exactly if it was not
   standalone, and a client without a token is left Disconnected. Unheard, the packet changes nothing.
   */
  lemma FallbackMode(c: Client, hasToken: bool)
    ensures
      var d := Step(c, PacketArrives(RecoveryFailed(hasToken)));
      if !Hears(c) then d == c
      else
        && (d.standalone == c.standalone <==> !c.standalone)
        && d.wasFromRecovery && !d.recovering && !d.socketUp && !d.udpUp
        && (d.state == TcpConnecting <==> hasToken)
        && (d.state == Disconnected <==> !hasToken)
  {
  }
}
