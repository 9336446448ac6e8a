/**
  Who may hold a camera's hardware.  Clients connect, disconnect, unlock and
  are destroyed on different threads; the service lock, each client's own lock,
  weak references and a busy bit per camera decide who opens the hardware.

  A state is everything the threads share together with how far each critical
  section has got, a step is what one thread does without giving others a
  chance, and the theorems are about every run of steps.
 */
module CameraService {

  import opened Common

  type Handle = nat
  type ClientId = nat
  type Binder = nat

  /** How far the `disconnect` that holds the client's lock has got. */
  datatype Teardown = Idle | Locked | Removing(next: nat) | Freeing

  /** Destruction begins when the last strong reference is gone; `torn` says its `disconnect` is over. */
  datatype Life = Alive | Destroying(torn: bool) | Destroyed

  datatype Client = Client(
    cameraId: nat,
    binder: Option<Binder>,      // mCameraClient
    pid: int,                    // mClientPid, 0 when unlocked
    hardware: Option<Handle>,    // mHardware
    refs: nat,                   // strong references
    teardown: Teardown,
    life: Life)

  /** How far the `connect` that holds the service lock has got. */
  datatype Stage = Opening | Opened(handle: Handle) | Built(client: ClientId) | Marked(client: ClientId)

  datatype Service = Free | Connecting(cameraId: nat, binder: Option<Binder>, pid: int, stage: Stage)

  datatype State = State(
    slots: seq<Option<ClientId>>,  // mClient, weak references
    busy: seq<bool>,               // mBusy
    clients: seq<Client>,
    service: Service,
    open: map<Handle, nat>,        // the open handles and their cameras
    released: seq<Handle>,         // the handles torn down, in order
    next: Handle)

  datatype Step =
    | StartConnect(cameraId: int, binder: Option<Binder>, pid: int)
    | OpenHardware(works: bool)
    | BuildClient
    | MarkBusy
    | Publish
    | StartDisconnect(client: ClientId, pid: int)
    | ReleaseHardware(client: ClientId)
    | RemoveOne(client: ClientId)
    | FreeCamera(client: ClientId)
    | AddRef(client: ClientId)
    | DropRef(client: ClientId, pid: int)
    | FinishDestroy(client: ClientId)
    | Lock(client: ClientId, pid: int)
    | Unlock(client: ClientId, pid: int)
    | Reconnect(client: ClientId, target: Binder, pid: int)

  function Init(cameras: nat): State {
    State(seq(cameras, _ => None), seq(cameras, _ => false), [], Free, map[], [], 0)
  }

  // ----- Steps -----

  function WithClient(s: State, c: ClientId, k: Client): State
    requires c < |s.clients|
  {
    s.(clients := s.clients[c := k])
  }

  /** Until `connect` stores the client it builds, no other thread has a reference to it. */
  predicate BeingBuilt(s: State, c: ClientId) {
    s.service.Connecting? && (s.service.stage == Built(c) || s.service.stage == Marked(c))
  }

  /** A weak reference can be promoted while the object has strong references. */
  predicate Promotes(s: State, c: ClientId): (can: bool)
    ensures can ==> c < |s.clients|
  {
    c < |s.clients| && s.clients[c].life == Alive && s.clients[c].refs > 0 && !BeingBuilt(s, c)
  }

  /** A thread that calls into a client holds a reference to it; calls that lock wait for the client's lock. */
  predicate Callable(s: State, c: ClientId) {
    Promotes(s, c) && s.clients[c].teardown == Idle
  }

  /** The destructor calls `disconnect` itself, under the pid it has just claimed. */
  predicate DestructorCalls(s: State, c: ClientId, pid: int) {
    c < |s.clients| && s.clients[c].life == Destroying(false) && s.clients[c].teardown == Idle &&
      s.clients[c].pid == pid
  }

  /** When a step can be taken. */
  predicate Enabled(s: State, step: Step) {
    match step
    case StartConnect(_, _, pid) => s.service == Free && pid > 0
    case OpenHardware(_) => s.service.Connecting? && s.service.stage == Opening
    case BuildClient => s.service.Connecting? && s.service.stage.Opened?
    case MarkBusy => s.service.Connecting? && s.service.stage.Built?
    case Publish => s.service.Connecting? && s.service.stage.Marked?
    case StartDisconnect(c, pid) =>
      pid > 0 && (Callable(s, c) || DestructorCalls(s, c, pid))
    case ReleaseHardware(c) => c < |s.clients| && s.clients[c].teardown == Locked
    case RemoveOne(c) => c < |s.clients| && s.clients[c].teardown.Removing? && s.service == Free
    case FreeCamera(c) => c < |s.clients| && s.clients[c].teardown == Freeing
    case AddRef(c) => Promotes(s, c)
    case DropRef(c, pid) => Promotes(s, c) && pid > 0 && (s.clients[c].teardown == Idle || s.clients[c].refs > 1)
    case FinishDestroy(c) => c < |s.clients| && s.clients[c].life == Destroying(true) && s.clients[c].teardown == Idle
    case Lock(c, pid) => Callable(s, c) && pid > 0
    case Unlock(c, pid) => Callable(s, c) && pid > 0
    case Reconnect(c, _, pid) => Callable(s, c) && pid > 0
  }

  /** `CameraService::connect` up to the decision to open the hardware. */
  function DoStartConnect(s: State, cameraId: int, binder: Option<Binder>, pid: int): State {
    if cameraId < 0 || cameraId >= |s.slots| || cameraId >= |s.busy| then s
    else match s.slots[cameraId]
      case Some(c) =>
        if Promotes(s, c) then WithClient(s, c, s.clients[c].(refs := s.clients[c].refs + 1))
        else DoConnectFree(s.(slots := s.slots[cameraId := None]), cameraId, binder, pid)
      case None => DoConnectFree(s, cameraId, binder, pid)
  }

  function DoConnectFree(s: State, cameraId: nat, binder: Option<Binder>, pid: int): State
    requires cameraId < |s.busy|
  {
    if s.busy[cameraId] then s else s.(service := Connecting(cameraId, binder, pid, Opening))
  }

  function DoOpenHardware(s: State, works: bool): State
    requires s.service.Connecting?
  {
    if !works then s.(service := Free)
    else s.(open := s.open[s.next := s.service.cameraId], next := s.next + 1,
            service := s.service.(stage := Opened(s.next)))
  }

  function DoBuildClient(s: State): State
    requires s.service.Connecting? && s.service.stage.Opened?
  {
    var c := Client(s.service.cameraId, s.service.binder, s.service.pid, Some(s.service.stage.handle), 1, Idle, Alive);
    s.(clients := s.clients + [c], service := s.service.(stage := Built(|s.clients|)))
  }

  function DoMarkBusy(s: State): State
    requires s.service.Connecting? && s.service.stage.Built? && s.service.cameraId < |s.busy|
  {
    s.(busy := s.busy[s.service.cameraId := true], service := s.service.(stage := Marked(s.service.stage.client)))
  }

  function DoPublish(s: State): State
    requires s.service.Connecting? && s.service.stage.Marked? && s.service.cameraId < |s.slots|
  {
    s.(slots := s.slots[s.service.cameraId := Some(s.service.stage.client)], service := Free)
  }

  /** `Client::disconnect` up to the tear-down; the destructor's call is over at once if there is nothing to do. */
  function DoStartDisconnect(s: State, c: ClientId, pid: int): State
    requires c < |s.clients|
  {
    var k := s.clients[c];
    if k.pid == pid && k.pid > 0 && k.hardware.Some? then WithClient(s, c, k.(teardown := Locked))
    else if k.life.Destroying? then WithClient(s, c, k.(life := Destroying(true)))
    else s
  }

  function DoReleaseHardware(s: State, c: ClientId): State
    requires c < |s.clients| && s.clients[c].hardware.Some?
  {
    var k := s.clients[c];
    WithClient(s, c, k.(hardware := None, teardown := Removing(0)))
      .(open := s.open - {k.hardware.value}, released := s.released + [k.hardware.value])
  }

  /** One turn of the loop in `removeClient`; a promoted reference is dropped by a later step. */
  function DoRemoveOne(s: State, c: ClientId): State
    requires c < |s.clients| && s.clients[c].teardown.Removing?
  {
    var k := s.clients[c];
    var i := k.teardown.next;
    if i >= |s.slots| then WithClient(s, c, k.(teardown := Freeing))
    else match s.slots[i]
      case None => WithClient(s, c, k.(teardown := Removing(i + 1)))
      case Some(d) =>
        if !Promotes(s, d) then
          WithClient(s, c, k.(teardown := Removing(i + 1))).(slots := s.slots[i := None])
        else
          var s1 := WithClient(s, d, s.clients[d].(refs := s.clients[d].refs + 1));
          if s.clients[d].binder == k.binder then
            WithClient(s1, c, s1.clients[c].(teardown := Freeing)).(slots := s.slots[i := None])
          else
            WithClient(s1, c, s1.clients[c].(teardown := Removing(i + 1)))
  }

  function DoFreeCamera(s: State, c: ClientId): State
    requires c < |s.clients| && s.clients[c].cameraId < |s.busy|
  {
    var k := s.clients[c];
    var life := if k.life.Destroying? then Destroying(true) else k.life;
    WithClient(s, c, k.(teardown := Idle, life := life)).(busy := s.busy[k.cameraId := false])
  }

  /** The last reference takes the client into its destructor, which claims the client's pid. */
  function DoDropRef(s: State, c: ClientId, pid: int): State
    requires c < |s.clients| && s.clients[c].refs > 0
  {
    var k := s.clients[c];
    WithClient(s, c, if k.refs > 1 then k.(refs := k.refs - 1)
      else k.(refs := 0, life := Destroying(false), pid := pid))
  }

  function DoUnlock(s: State, c: ClientId, pid: int): State
    requires c < |s.clients|
  {
    var k := s.clients[c];
    if k.pid == pid then WithClient(s, c, k.(pid := 0, binder := None)) else s
  }

  function DoLock(s: State, c: ClientId, pid: int): State
    requires c < |s.clients|
  {
    var k := s.clients[c];
    if k.pid == 0 then WithClient(s, c, k.(pid := pid)) else s
  }

  function DoReconnect(s: State, c: ClientId, binder: Binder, pid: int): State
    requires c < |s.clients|
  {
    var k := s.clients[c];
    if k.pid != 0 && k.pid != pid then s
    else if k.binder == Some(binder) then s
    else WithClient(s, c, k.(pid := pid, binder := Some(binder)))
  }

  function Apply(s: State, step: Step): State
    requires Sane(s) && Enabled(s, step)
  {
    match step
    case StartConnect(cameraId, binder, pid) => DoStartConnect(s, cameraId, binder, pid)
    case OpenHardware(works) => DoOpenHardware(s, works)
    case BuildClient => DoBuildClient(s)
    case MarkBusy => DoMarkBusy(s)
    case Publish => DoPublish(s)
    case StartDisconnect(c, pid) => DoStartDisconnect(s, c, pid)
    case ReleaseHardware(c) => DoReleaseHardware(s, c)
    case RemoveOne(c) => DoRemoveOne(s, c)
    case FreeCamera(c) => DoFreeCamera(s, c)
    case AddRef(c) => WithClient(s, c, s.clients[c].(refs := s.clients[c].refs + 1))
    case DropRef(c, pid) => DoDropRef(s, c, pid)
    case FinishDestroy(c) => WithClient(s, c, s.clients[c].(life := Destroyed))
    case Lock(c, pid) => DoLock(s, c, pid)
    case Unlock(c, pid) => DoUnlock(s, c, pid)
    case Reconnect(c, binder, pid) => DoReconnect(s, c, binder, pid)
  }

  // ----- Invariants -----

  /** Indices are in range and a client about to release its hardware has some. */
  predicate Sane(s: State) {
    && |s.slots| == |s.busy|
    && (s.service.Connecting? ==> s.service.cameraId < |s.busy|)
    && (forall c :: 0 <= c < |s.clients| ==>
          s.clients[c].cameraId < |s.busy| && (s.clients[c].teardown == Locked ==> s.clients[c].hardware.Some?))
  }

  /** The client has, or is still giving back, its camera. */
  predicate Occupies(k: Client) {
    k.hardware.Some? || k.teardown.Removing? || k.teardown == Freeing
  }

  predicate OccupiesCamera(s: State, c: ClientId, camera: nat) {
    c < |s.clients| && Occupies(s.clients[c]) && s.clients[c].cameraId == camera
  }

  /** No two clients occupy one camera. */
  ghost predicate OneOccupant(s: State) {
    forall c: ClientId, d: ClientId, camera: nat ::
      OccupiesCamera(s, c, camera) && OccupiesCamera(s, d, camera) ==> c == d
  }

  /** An occupied camera is marked busy, except by the client that `connect` has built but not marked yet. */
  ghost predicate OccupiedIsBusy(s: State) {
    forall c: ClientId, camera: nat :: OccupiesCamera(s, c, camera) && camera < |s.busy| ==>
      s.busy[camera] || (s.service.Connecting? && s.service.stage == Built(c))
  }

  /** While `connect` has decided to open a camera, nobody else occupies it. */
  ghost predicate ConnectAlone(s: State) {
    s.service.Connecting? ==>
      && (forall c: ClientId :: OccupiesCamera(s, c, s.service.cameraId) ==> BeingBuilt(s, c))
      && (s.service.stage == Opening || s.service.stage.Opened? ==>
        s.service.cameraId < |s.busy| && !s.busy[s.service.cameraId])
      && (forall h :: s.service.stage == Opened(h) ==> h in s.open && s.open[h] == s.service.cameraId && Unowned(s, h))
      && (forall c: ClientId :: BeingBuilt(s, c) ==>
           OccupiesCamera(s, c, s.service.cameraId) && s.clients[c].life == Alive && s.clients[c].teardown == Idle)
  }

  /** No client has the handle yet. */
  ghost predicate Unowned(s: State, h: Handle) {
    forall c :: 0 <= c < |s.clients| ==> s.clients[c].hardware != Some(h)
  }

  /** A client's handle is open on its camera; every open handle has one owner. */
  ghost predicate HandlesOwned(s: State) {
    && (forall c :: 0 <= c < |s.clients| && s.clients[c].hardware.Some? ==>
          s.clients[c].hardware.value in s.open && s.open[s.clients[c].hardware.value] == s.clients[c].cameraId)
    && (forall h :: h in s.open ==> HasOwner(s, h))
  }

  ghost predicate HasOwner(s: State, h: Handle) {
    || (s.service.Connecting? && s.service.stage == Opened(h))
    || exists c :: 0 <= c < |s.clients| && s.clients[c].hardware == Some(h)
  }

  /** Every handle ever opened is open, or has been torn down exactly once. */
  ghost predicate HandlesAccounted(s: State) {
    && (forall h :: h in s.open ==> h < s.next && h !in s.released)
    && (forall i :: 0 <= i < |s.released| ==> s.released[i] < s.next)
    && (forall i, j :: 0 <= i < j < |s.released| ==> s.released[i] != s.released[j])
    && (forall h: Handle :: h < s.next ==> h in s.open || h in s.released)
  }

  /** The tear-down only runs while the client can be called or is being destroyed; a destroyed client holds nothing. */
  ghost predicate LivesOk(s: State) {
    forall c :: 0 <= c < |s.clients| ==> LifeOk(s.clients[c])
  }

  predicate LifeOk(k: Client) {
    && (k.life == Alive ==> k.refs > 0)
    && (k.life == Destroying(false) ==> k.pid > 0)
    && (k.life == Destroying(true) || k.life == Destroyed ==> k.hardware == None && k.teardown == Idle)
    && (k.hardware.Some? ==> k.teardown == Idle || k.teardown == Locked)
  }

  ghost predicate Inv(s: State) {
    && Sane(s) && OneOccupant(s) && OccupiedIsBusy(s) && ConnectAlone(s)
    && HandlesOwned(s) && HandlesAccounted(s) && LivesOk(s)
  }

  lemma InitInv(cameras: nat)
    ensures Inv(Init(cameras))
  {}

  /** A client that keeps its hardware still owns its handle. */
  lemma OwnersKept(s: State, t: State)
    requires HandlesOwned(s)
    requires forall h :: h in t.open ==> h in s.open
    requires forall c ::
      0 <= c < |s.clients| && s.clients[c].hardware.Some? && s.clients[c].hardware.value in t.open ==>
      c < |t.clients| && t.clients[c].hardware == s.clients[c].hardware
    requires forall h :: h in t.open && s.service.Connecting? && s.service.stage == Opened(h) ==> HasOwner(t, h)
    ensures forall h :: h in t.open ==> HasOwner(t, h)
  {
    forall h | h in t.open ensures HasOwner(t, h) {
      assert HasOwner(s, h);
    }
  }

  /** What a step may change without touching who occupies a camera. */
  ghost predicate SameHolders(s: State, t: State) {
    && |t.slots| == |s.slots| && t.busy == s.busy && t.service == s.service
    && t.open == s.open && t.released == s.released && t.next == s.next
    && |t.clients| == |s.clients|
    && (forall c :: 0 <= c < |s.clients| ==> SameHold(s.clients[c], t.clients[c]) && LifeOk(t.clients[c]))
    && (forall c: ClientId :: BeingBuilt(s, c) && c < |s.clients| ==> t.clients[c] == s.clients[c])
  }

  predicate SameHold(k: Client, l: Client) {
    && l.cameraId == k.cameraId && l.hardware == k.hardware && Occupies(l) == Occupies(k)
    && (l.teardown == Locked ==> l.hardware.Some?)
  }

  lemma SameHoldersKeepInv(s: State, t: State)
    requires Inv(s) == true && SameHolders(s, t)
    ensures Inv(t) == true
  {
    OwnersKept(s, t);
    assert forall c: ClientId :: BeingBuilt(t, c) == BeingBuilt(s, c);
    assert forall c: ClientId, camera: nat :: OccupiesCamera(t, c, camera) == OccupiesCamera(s, c, camera);
  }

  lemma ConnectFreeKeepsInv(s: State, cameraId: nat, binder: Option<Binder>, pid: int)
    requires Inv(s) && s.service == Free && cameraId < |s.busy|
    ensures Inv(DoConnectFree(s, cameraId, binder, pid))
  {
    var t := DoConnectFree(s, cameraId, binder, pid);
    OwnersKept(s, t);
    assert forall c: ClientId, camera: nat :: OccupiesCamera(t, c, camera) == OccupiesCamera(s, c, camera);
  }

  lemma StartConnectKeepsInv(s: State, cameraId: int, binder: Option<Binder>, pid: int)
    requires Inv(s) && Enabled(s, StartConnect(cameraId, binder, pid))
    ensures Inv(DoStartConnect(s, cameraId, binder, pid))
  {
    if 0 <= cameraId < |s.slots| {
      var cleared := s.(slots := s.slots[cameraId := None]);
      if s.slots[cameraId].Some? && Promotes(s, s.slots[cameraId].value) {
        SameHoldersKeepInv(s, DoStartConnect(s, cameraId, binder, pid));
      } else if s.slots[cameraId].Some? {
        SameHoldersKeepInv(s, cleared);
        ConnectFreeKeepsInv(cleared, cameraId, binder, pid);
      } else {
        ConnectFreeKeepsInv(s, cameraId, binder, pid);
      }
    }
  }

  lemma OpenHardwareKeepsInv(s: State, works: bool)
    requires Inv(s) && Enabled(s, OpenHardware(works))
    ensures Inv(DoOpenHardware(s, works))
  {
    var t := DoOpenHardware(s, works);
    assert forall c: ClientId, camera: nat :: OccupiesCamera(t, c, camera) == OccupiesCamera(s, c, camera);
    OwnersKept(s, t.(open := s.open));
    forall h | h in t.open ensures HasOwner(t, h) {
      if h in s.open { assert HasOwner(t.(open := s.open), h); }
    }
  }

  lemma SameHandles(s: State, t: State)
    requires HandlesAccounted(s) == true && t.open == s.open && t.released == s.released && t.next == s.next
    ensures HandlesAccounted(t) == true
  {}

  lemma BuiltIsAlone(s: State)
    requires Inv(s) && Enabled(s, BuildClient)
    ensures var t := DoBuildClient(s); OneOccupant(t) && OccupiedIsBusy(t) && ConnectAlone(t)
  {
    hide HandlesAccounted, HandlesOwned, LifeOk;
    var t := DoBuildClient(s);
    var c := |s.clients|;
    assert forall d: ClientId, camera: nat ::
      OccupiesCamera(t, d, camera) ==> if d == c then camera == s.service.cameraId else OccupiesCamera(s, d, camera);
  }

  lemma BuiltHasHandle(s: State)
    requires Inv(s) && Enabled(s, BuildClient)
    ensures HandlesOwned(DoBuildClient(s))
  {
    hide HandlesAccounted, OneOccupant, OccupiedIsBusy, LifeOk;
    var t := DoBuildClient(s);
    assert t.clients[|s.clients|].hardware == Some(s.service.stage.handle);
    OwnersKept(s, t);
  }

  lemma BuildClientKeepsInv(s: State)
    requires Inv(s) && Enabled(s, BuildClient)
    ensures Inv(DoBuildClient(s))
  {
    hide HandlesAccounted, OneOccupant, OccupiedIsBusy, ConnectAlone, HandlesOwned;
    SameHandles(s, DoBuildClient(s));
    BuiltIsAlone(s);
    BuiltHasHandle(s);
  }

  lemma MarkBusyKeepsInv(s: State)
    requires Inv(s) && Enabled(s, MarkBusy)
    ensures Inv(DoMarkBusy(s))
  {
    var t := DoMarkBusy(s);
    assert forall c: ClientId, camera: nat :: OccupiesCamera(t, c, camera) == OccupiesCamera(s, c, camera);
    assert forall c: ClientId :: BeingBuilt(t, c) == BeingBuilt(s, c);
    OwnersKept(s, t);
  }

  lemma PublishKeepsInv(s: State)
    requires Inv(s) && Enabled(s, Publish)
    ensures Inv(DoPublish(s))
  {
    var t := DoPublish(s);
    assert forall c: ClientId, camera: nat :: OccupiesCamera(t, c, camera) == OccupiesCamera(s, c, camera);
    OwnersKept(s, t);
  }

  lemma StartDisconnectKeepsInv(s: State, c: ClientId, pid: int)
    requires Inv(s) && Enabled(s, StartDisconnect(c, pid))
    ensures Inv(DoStartDisconnect(s, c, pid))
  {
    SameHoldersKeepInv(s, DoStartDisconnect(s, c, pid));
  }

  lemma HandleReleased(s: State, t: State, h: Handle)
    requires HandlesAccounted(s) && h in s.open
    requires t.open == s.open - {h} && t.released == s.released + [h] && t.next == s.next
    ensures HandlesAccounted(t) == true
  {
    assert h !in s.released && h in t.released;
  }

  lemma HoldsHandle(s: State, c: ClientId)
    requires HandlesOwned(s) && c < |s.clients| && s.clients[c].hardware.Some?
    ensures s.clients[c].hardware.value in s.open
  {}

  lemma StillAlive(s: State, t: State, c: ClientId)
    requires LivesOk(s) && Enabled(s, ReleaseHardware(c)) && s.clients[c].hardware.Some? && t == DoReleaseHardware(s, c)
    ensures LivesOk(t)
  {}

  /** Nothing about who occupies which camera has changed. */
  lemma SameOccupants(s: State, t: State)
    requires OneOccupant(s) && OccupiedIsBusy(s) && t.busy == s.busy && t.service == s.service
    requires forall c: ClientId, camera: nat :: OccupiesCamera(t, c, camera) == OccupiesCamera(s, c, camera)
    ensures OneOccupant(t) && OccupiedIsBusy(t)
  {
    hide OccupiesCamera;
  }

  /** The others keep their handles: no two clients that occupy a camera have the same one. */
  lemma OthersStillOwn(s: State, c: ClientId)
    requires Inv(s) && Enabled(s, ReleaseHardware(c)) && s.clients[c].hardware.Some?
    ensures HandlesOwned(DoReleaseHardware(s, c))
  {
    hide HandlesAccounted, LifeOk, OccupiedIsBusy;
    var t := DoReleaseHardware(s, c);
    assert OccupiesCamera(s, c, s.clients[c].cameraId);
    forall d | 0 <= d < |s.clients| && d != c && s.clients[d].hardware.Some?
      ensures s.clients[d].hardware != s.clients[c].hardware
    {
      assert OccupiesCamera(s, d, s.clients[d].cameraId);
    }
    OwnersKept(s, t);
  }

  lemma ReleaseHardwareKeepsInv(s: State, c: ClientId)
    requires Inv(s) && Enabled(s, ReleaseHardware(c))
    ensures Inv(DoReleaseHardware(s, c))
  {
    hide HandlesAccounted, LifeOk, OneOccupant, OccupiedIsBusy, HandlesOwned;
    var t := DoReleaseHardware(s, c);
    HoldsHandle(s, c);
    HandleReleased(s, t, s.clients[c].hardware.value);
    StillAlive(s, t, c);
    assert OccupiesCamera(s, c, s.clients[c].cameraId);
    assert forall d: ClientId, camera: nat :: OccupiesCamera(t, d, camera) == OccupiesCamera(s, d, camera);
    SameOccupants(s, t);
    assert forall d: ClientId :: BeingBuilt(t, d) == BeingBuilt(s, d);
    OthersStillOwn(s, c);
  }

  lemma RemoveOneKeepsInv(s: State, c: ClientId)
    requires Inv(s) && Enabled(s, RemoveOne(c))
    ensures Inv(DoRemoveOne(s, c))
  {
    hide OneOccupant, OccupiedIsBusy, ConnectAlone, HandlesOwned, HandlesAccounted;
    var t := DoRemoveOne(s, c);
    forall d | 0 <= d < |s.clients|
      ensures SameHold(s.clients[d], t.clients[d]) && LifeOk(t.clients[d]) == true
    {
      assert LifeOk(s.clients[d]);
    }
    SameHoldersKeepInv(s, t);
  }

  lemma FreeCameraKeepsInv(s: State, c: ClientId)
    requires Inv(s) && Enabled(s, FreeCamera(c))
    ensures Inv(DoFreeCamera(s, c))
  {
    var t := DoFreeCamera(s, c);
    var camera := s.clients[c].cameraId;
    assert OccupiesCamera(s, c, camera);
    assert forall d: ClientId, e: nat :: OccupiesCamera(t, d, e) == (d != c && OccupiesCamera(s, d, e));
    assert forall d: ClientId :: BeingBuilt(t, d) == BeingBuilt(s, d);
    OwnersKept(s, t);
  }

  lemma DropRefKeepsInv(s: State, c: ClientId, pid: int)
    requires Inv(s) && Enabled(s, DropRef(c, pid))
    ensures Inv(DoDropRef(s, c, pid))
  {
    SameHoldersKeepInv(s, DoDropRef(s, c, pid));
  }

  /** Steps that change only a client's references, pid, binder or final state. */
  lemma MinorStepKeepsInv(s: State, step: Step)
    requires Inv(s) && Enabled(s, step)
    requires step.AddRef? || step.FinishDestroy? || step.Lock? || step.Unlock? || step.Reconnect?
    ensures Inv(Apply(s, step))
  {
    hide OneOccupant, OccupiedIsBusy, HandlesOwned, HandlesAccounted;
    SameHoldersKeepInv(s, Apply(s, step));
  }

  /** Every step keeps the invariant. */
  lemma StepKeepsInv(s: State, step: Step)
    requires Inv(s) && Enabled(s, step)
    ensures Inv(Apply(s, step))
  {
    match step
    case StartConnect(cameraId, binder, pid) => StartConnectKeepsInv(s, cameraId, binder, pid);
    case OpenHardware(works) => OpenHardwareKeepsInv(s, works);
    case BuildClient => BuildClientKeepsInv(s);
    case MarkBusy => MarkBusyKeepsInv(s);
    case Publish => PublishKeepsInv(s);
    case StartDisconnect(c, pid) => StartDisconnectKeepsInv(s, c, pid);
    case ReleaseHardware(c) => ReleaseHardwareKeepsInv(s, c);
    case RemoveOne(c) => RemoveOneKeepsInv(s, c);
    case FreeCamera(c) => FreeCameraKeepsInv(s, c);
    case DropRef(c, pid) => DropRefKeepsInv(s, c, pid);
    case _ => MinorStepKeepsInv(s, step);
  }

  // ----- Theorems -----

  /** A run: one state after another, each by a step that could be taken. */
  ghost predicate IsRun(states: seq<State>, steps: seq<Step>) {
    && |states| == |steps| + 1
    && (exists cameras: nat :: states[0] == Init(cameras))
    && forall i :: 0 <= i < |steps| ==>
         Sane(states[i]) && Enabled(states[i], steps[i]) && states[i + 1] == Apply(states[i], steps[i])
  }

  lemma {:induction false} RunKeepsInv(states: seq<State>, steps: seq<Step>, n: nat)
    requires IsRun(states, steps) && n < |states|
    ensures Inv(states[n])
    decreases n
  {
    if n == 0 {
      var cameras: nat :| states[0] == Init(cameras);
      InitInv(cameras);
    } else {
      RunKeepsInv(states, steps, n - 1);
      StepKeepsInv(states[n - 1], steps[n - 1]);
    }
  }

  /** In every interleaving, at most one handle per camera is open, and it is the one a client or `connect` holds. */
  lemma OneOpenHandlePerCamera(states: seq<State>, steps: seq<Step>, n: nat, h1: Handle, h2: Handle)
    requires IsRun(states, steps) && n < |states|
    requires h1 in states[n].open && h2 in states[n].open && states[n].open[h1] == states[n].open[h2]
    ensures h1 == h2
    ensures HasOwner(states[n], h1)
  {
    RunKeepsInv(states, steps, n);
    var s := states[n];
    assert HasOwner(s, h1) && HasOwner(s, h2);
    if s.service.Connecting? && (s.service.stage == Opened(h1) || s.service.stage == Opened(h2)) {
      forall c | 0 <= c < |s.clients| && s.clients[c].hardware.Some?
        ensures s.clients[c].cameraId != s.service.cameraId
      {
        assert OccupiesCamera(s, c, s.clients[c].cameraId);
      }
    } else {
      var c :| 0 <= c < |s.clients| && s.clients[c].hardware == Some(h1);
      var d :| 0 <= d < |s.clients| && s.clients[d].hardware == Some(h2);
      assert OccupiesCamera(s, c, s.open[h1]) && OccupiesCamera(s, d, s.open[h1]);
    }
  }

  /**
    The hardware is opened only when no handle of that camera is open, its busy
    bit is clear and no client is giving it back.
   */
  lemma OpensOnlyWhenReleased(states: seq<State>, steps: seq<Step>, n: nat)
    requires IsRun(states, steps) && n < |steps| && steps[n].OpenHardware?
    ensures states[n].service.Connecting?
    ensures var camera := states[n].service.cameraId;
      && (forall h :: h in states[n].open ==> states[n].open[h] != camera)
      && camera < |states[n].busy| && !states[n].busy[camera]
      && (forall c: ClientId :: !OccupiesCamera(states[n], c, camera))
  {
    RunKeepsInv(states, steps, n);
    var s := states[n];
    assert Enabled(s, steps[n]);
    forall h | h in s.open ensures s.open[h] != s.service.cameraId {
      assert HasOwner(s, h);
      var c :| 0 <= c < |s.clients| && s.clients[c].hardware == Some(h);
      assert OccupiesCamera(s, c, s.open[h]);
    }
  }

  /** Every handle is torn down at most once, and never while it is open or before it was. */
  lemma TornDownOnce(states: seq<State>, steps: seq<Step>, n: nat, h: Handle)
    requires IsRun(states, steps) && n < |states|
    ensures h in states[n].open || h in states[n].released <==> h < states[n].next
    ensures !(h in states[n].open && h in states[n].released)
    ensures forall i, j :: 0 <= i < j < |states[n].released| ==> states[n].released[i] != states[n].released[j]
  {
    RunKeepsInv(states, steps, n);
  }

  /**
    When all clients are gone, unlocked or not, and no `connect` is running,
    every handle ever opened has been torn down and none is open.
   */
  lemma AllGoneAllReturned(states: seq<State>, steps: seq<Step>, n: nat)
    requires IsRun(states, steps) && n < |states| && states[n].service == Free
    requires forall c :: 0 <= c < |states[n].clients| ==> states[n].clients[c].life == Destroyed
    ensures states[n].open == map[]
    ensures forall h: Handle :: h < states[n].next <==> h in states[n].released
  {
    RunKeepsInv(states, steps, n);
    var s := states[n];
    forall h ensures h !in s.open {
    }
  }

  // ----- What can always be done -----

  /** The steps can be taken from `s`, one after the other, and end in `t`. */
  ghost predicate Leads(s: State, steps: seq<Step>, t: State)
    decreases |steps|
  {
    if steps == [] then s == t
    else Sane(s) && Enabled(s, steps[0]) && Leads(Apply(s, steps[0]), steps[1..], t)
  }

  lemma LeadsOne(s: State, step: Step, t: State)
    requires Sane(s) && Enabled(s, step) && t == Apply(s, step)
    ensures Leads(s, [step], t)
  {
    assert [step][1..] == [];
  }

  lemma {:induction false} LeadsOn(s: State, a: seq<Step>, t: State, b: seq<Step>, u: State)
    requires Leads(s, a, t) && Leads(t, b, u)
    ensures Leads(s, a + b, u)
    decreases |a|
  {
    if a == [] {
      assert a + b == b;
    } else {
      LeadsOn(Apply(s, a[0]), a[1..], t, b, u);
      assert (a + b)[1..] == a[1..] + b;
    }
  }

  /** A camera that `connect` would open: nobody connects, it exists, it is not busy, and no client has its slot. */
  ghost predicate CanConnect(s: State, cameraId: int) {
    && s.service == Free && 0 <= cameraId < |s.slots| && cameraId < |s.busy| && !s.busy[cameraId]
    && (s.slots[cameraId].Some? ==> !Promotes(s, s.slots[cameraId].value))
  }

  /** `s` with a new live client of `pid` in the slot of a camera, and a new handle open on it. */
  ghost predicate Connected(s: State, t: State, cameraId: nat, binder: Option<Binder>, pid: int) {
    && cameraId < |s.slots| == |s.busy|
    && t.slots == s.slots[cameraId := Some(|s.clients|)] && t.busy == s.busy[cameraId := true]
    && t.clients == s.clients + [Client(cameraId, binder, pid, Some(s.next), 1, Idle, Alive)]
    && s.next !in s.open && t.open == s.open[s.next := cameraId] && t.released == s.released && t.next > s.next
    && t.service == Free
  }

  /**
    Connecting works: in every state of every run in which the camera can be
    opened, `connect` can go through all its steps, and the camera is then open
    for a new client that has its slot.
   */
  lemma Connects(states: seq<State>, steps: seq<Step>, n: nat, cameraId: int, binder: Option<Binder>, pid: int)
    returns (t: State)
    requires IsRun(states, steps) && n < |states| && CanConnect(states[n], cameraId) && pid > 0
    ensures Leads(states[n],
      [StartConnect(cameraId, binder, pid), OpenHardware(true), BuildClient, MarkBusy, Publish], t)
    ensures Connected(states[n], t, cameraId, binder, pid) && Promotes(t, |states[n].clients|)
  {
    RunKeepsInv(states, steps, n);
    var s := states[n];
    hide Leads, Inv;
    var s1 := Starting(s, cameraId, binder, pid);
    var s4 := Building(s1);
    t := Apply(s4, Publish);
    LeadsOne(s4, Publish, t);
    LeadsOn(s1, [OpenHardware(true), BuildClient, MarkBusy], s4, [Publish], t);
    LeadsOn(s, [StartConnect(cameraId, binder, pid)], s1, [OpenHardware(true), BuildClient, MarkBusy] + [Publish], t);
    assert [StartConnect(cameraId, binder, pid)] + ([OpenHardware(true), BuildClient, MarkBusy] + [Publish]) ==
           [StartConnect(cameraId, binder, pid), OpenHardware(true), BuildClient, MarkBusy, Publish];
    StillUsed(s);
  }

  lemma StillUsed(s: State)
    requires Inv(s)
    ensures Sane(s) && s.next !in s.open
  {}

  lemma Starting(s: State, cameraId: int, binder: Option<Binder>, pid: int) returns (t: State)
    requires Inv(s) && CanConnect(s, cameraId) && pid > 0
    ensures Sane(t) && Leads(s, [StartConnect(cameraId, binder, pid)], t)
    ensures t == s.(slots := s.slots[cameraId := None], service := Connecting(cameraId, binder, pid, Opening))
  {
    if s.slots[cameraId] == None {
      assert s.slots[cameraId := None] == s.slots;
    }
    t := Apply(s, StartConnect(cameraId, binder, pid));
    LeadsOne(s, StartConnect(cameraId, binder, pid), t);
  }

  /** From the decision to open the hardware to the mark that the camera is busy. */
  lemma Building(s: State) returns (t: State)
    requires Sane(s) && s.service.Connecting? && s.service.stage == Opening
    ensures Sane(t) && Leads(s, [OpenHardware(true), BuildClient, MarkBusy], t)
    ensures var camera := s.service.cameraId;
      && t.slots == s.slots && t.busy == s.busy[camera := true]
      && t.clients == s.clients + [Client(camera, s.service.binder, s.service.pid, Some(s.next), 1, Idle, Alive)]
      && t.open == s.open[s.next := camera] && t.released == s.released && t.next == s.next + 1
      && t.service == Connecting(camera, s.service.binder, s.service.pid, Marked(|s.clients|))
  {
    var s1 := Apply(s, OpenHardware(true));
    var s2 := Apply(s1, BuildClient);
    t := Apply(s2, MarkBusy);
    LeadsOne(s, OpenHardware(true), s1);
    LeadsOne(s1, BuildClient, s2);
    LeadsOne(s2, MarkBusy, t);
    LeadsOn(s1, [BuildClient], s2, [MarkBusy], t);
    LeadsOn(s, [OpenHardware(true)], s1, [BuildClient] + [MarkBusy], t);
    assert [OpenHardware(true)] + ([BuildClient] + [MarkBusy]) == [OpenHardware(true), BuildClient, MarkBusy];
  }

  /**
    And otherwise it opens nothing and leaves the service free: a camera that
    does not exist changes nothing, a live client keeps its slot and is referred
    to once more, and a busy camera only loses the slot of a dead client.
   */
  lemma ConnectRefused(s: State, cameraId: int, binder: Option<Binder>, pid: int)
    requires Inv(s) && Enabled(s, StartConnect(cameraId, binder, pid)) && !CanConnect(s, cameraId)
    ensures var t := Apply(s, StartConnect(cameraId, binder, pid));
      && t.service == Free && t.open == s.open && t.next == s.next && t.released == s.released && t.busy == s.busy
      && if !(0 <= cameraId < |s.slots|) then t == s
         else if s.slots[cameraId].Some? && Promotes(s, s.slots[cameraId].value) then
           var c := s.slots[cameraId].value;
           t == s.(clients := s.clients[c := s.clients[c].(refs := s.clients[c].refs + 1)])
         else t == s.(slots := s.slots[cameraId := None])
  {
    if 0 <= cameraId < |s.slots| && s.slots[cameraId] == None {
      assert s.slots[cameraId := None] == s.slots;
    }
  }

  /** Hardware that does not open leaves nothing behind but the slot, which was empty or of a dead client. */
  lemma HardwareFails(states: seq<State>, steps: seq<Step>, n: nat, cameraId: int, binder: Option<Binder>, pid: int)
    requires IsRun(states, steps) && n < |states| && CanConnect(states[n], cameraId) && pid > 0
    ensures Leads(states[n], [StartConnect(cameraId, binder, pid), OpenHardware(false)],
      states[n].(slots := states[n].slots[cameraId := None]))
  {
    RunKeepsInv(states, steps, n);
    var s := states[n];
    hide Leads;
    var s1 := Starting(s, cameraId, binder, pid);
    var t := Apply(s1, OpenHardware(false));
    LeadsOne(s1, OpenHardware(false), t);
    LeadsOn(s, [StartConnect(cameraId, binder, pid)], s1, [OpenHardware(false)], t);
    assert [StartConnect(cameraId, binder, pid)] + [OpenHardware(false)] ==
           [StartConnect(cameraId, binder, pid), OpenHardware(false)];
  }

  // ----- Giving a camera back -----

  /** The first slot from `i` on whose client is alive and has the binder `b`; none gives the number of slots. */
  ghost function SlotOf(s: State, b: Option<Binder>, i: nat): (j: nat)
    requires i <= |s.slots|
    ensures i <= j <= |s.slots|
    ensures forall k :: i <= k < j && s.slots[k].Some? && Promotes(s, s.slots[k].value) ==>
      s.clients[s.slots[k].value].binder != b
    ensures j < |s.slots| ==>
      s.slots[j].Some? && Promotes(s, s.slots[j].value) && s.clients[s.slots[j].value].binder == b
    decreases |s.slots| - i
  {
    if i == |s.slots| then i
    else if s.slots[i].Some? && Promotes(s, s.slots[i].value) && s.clients[s.slots[i].value].binder == b then i
    else SlotOf(s, b, i + 1)
  }

  /** What the loop leaves of a slot: empty if its client is dead, or if it is the first of a client with the binder. */
  ghost function SlotAfter(s: State, b: Option<Binder>, i: nat, k: nat): Option<ClientId>
    requires i <= k < |s.slots|
  {
    var j := SlotOf(s, b, i);
    if k == j || (k < j && s.slots[k].Some? && !Promotes(s, s.slots[k].value)) then None else s.slots[k]
  }

  /** The loop of `removeClient` from `i` on: it touches no more than slots and references. */
  ghost predicate Removed(s: State, t: State, c: ClientId, i: nat)
    requires i <= |s.slots| && c < |s.clients|
  {
    && |t.slots| == |s.slots| && |t.clients| == |s.clients|
    && (forall k :: 0 <= k < i ==> t.slots[k] == s.slots[k])
    && (forall k :: i <= k < |s.slots| ==> t.slots[k] == SlotAfter(s, s.clients[c].binder, i, k))
    && t.busy == s.busy && t.service == s.service && t.open == s.open && t.released == s.released && t.next == s.next
    && t.clients[c] == s.clients[c].(teardown := Freeing, refs := t.clients[c].refs)
    && (forall d :: 0 <= d < |s.clients| && d != c ==> t.clients[d] == s.clients[d].(refs := t.clients[d].refs))
    && (forall d :: 0 <= d < |s.clients| ==> t.clients[d].refs >= s.clients[d].refs)
  }

  /** One turn of the loop that is not the last. */
  ghost predicate TurnsOver(s: State, t: State, c: ClientId, i: nat)
    requires i < |s.slots| && c < |s.clients|
  {
    && t.slots == s.slots[i := if s.slots[i].Some? && !Promotes(s, s.slots[i].value) then None else s.slots[i]]
    && |t.clients| == |s.clients|
    && t.busy == s.busy && t.service == s.service && t.open == s.open && t.released == s.released && t.next == s.next
    && t.clients[c] == s.clients[c].(teardown := Removing(i + 1), refs := t.clients[c].refs)
    && (forall d :: 0 <= d < |s.clients| && d != c ==> t.clients[d] == s.clients[d].(refs := t.clients[d].refs))
    && (forall d :: 0 <= d < |s.clients| ==> t.clients[d].refs >= s.clients[d].refs)
  }

  /** The loop only adds references, so it does not change who can be promoted. */
  lemma SamePromotes(s: State, t: State, c: ClientId, i: nat)
    requires i < |s.slots| && c < |s.clients| && LivesOk(s) && TurnsOver(s, t, c, i)
    ensures forall d: ClientId :: Promotes(t, d) == Promotes(s, d)
    ensures forall d: ClientId :: Promotes(s, d) ==>
      d < |t.clients| && t.clients[d].binder == s.clients[d].binder
    ensures t.clients[c].binder == s.clients[c].binder
  {
    forall d: ClientId
      ensures Promotes(t, d) == Promotes(s, d)
    {
      if d < |s.clients| {
        assert LifeOk(s.clients[d]) && t.clients[d].life == s.clients[d].life;
      }
    }
  }

  lemma SameSlotOf(s: State, t: State, b: Option<Binder>, i: nat, k: nat)
    requires i < k <= |s.slots| && |t.slots| == |s.slots| && t.slots[i + 1..] == s.slots[i + 1..]
    requires forall d: ClientId :: Promotes(t, d) == Promotes(s, d)
    requires forall d: ClientId :: Promotes(s, d) ==>
      d < |t.clients| && t.clients[d].binder == s.clients[d].binder
    ensures SlotOf(t, b, k) == SlotOf(s, b, k)
    decreases |s.slots| - k
  {
    hide Promotes;
    if k < |s.slots| {
      SameSlotOf(s, t, b, i, k + 1);
      assert t.slots[k] == t.slots[i + 1..][k - i - 1] == s.slots[k];
    }
  }

  lemma RemovedFrom(s: State, u: State, t: State, c: ClientId, i: nat)
    requires i < |s.slots| && c < |s.clients| && LivesOk(s) && TurnsOver(s, u, c, i) && Removed(u, t, c, i + 1)
    requires s.slots[i].Some? && Promotes(s, s.slots[i].value) ==>
      s.clients[s.slots[i].value].binder != s.clients[c].binder
    ensures Removed(s, t, c, i)
  {
    hide Promotes, SlotOf;
    var b := s.clients[c].binder;
    SamePromotes(s, u, c, i);
    SameSlotOf(s, u, b, i, i + 1);
    SlotOfNext(s, b, i);
    forall k | i <= k < |s.slots|
      ensures t.slots[k] == SlotAfter(s, b, i, k)
    {
      assert k > i ==> u.slots[k] == s.slots[k] && t.slots[k] == SlotAfter(u, b, i + 1, k);
      assert k == i ==> t.slots[k] == u.slots[k];
    }
  }

  lemma SlotOfNext(s: State, b: Option<Binder>, i: nat)
    requires i < |s.slots|
    ensures SlotOf(s, b, i) ==
      if s.slots[i].Some? && Promotes(s, s.slots[i].value) && s.clients[s.slots[i].value].binder == b then i
      else SlotOf(s, b, i + 1)
    ensures i + 1 <= SlotOf(s, b, i + 1) <= |s.slots|
  {}

  /** The last turn: the end of the slots, or the first client with the binder. */
  lemma RemovedAtOnce(s: State, c: ClientId, i: nat)
    requires i <= |s.slots| && c < |s.clients| && s.clients[c].teardown == Removing(i)
    requires i < |s.slots| ==> s.slots[i].Some? && Promotes(s, s.slots[i].value) &&
                               s.clients[s.slots[i].value].binder == s.clients[c].binder
    ensures Removed(s, DoRemoveOne(s, c), c, i)
  {}

  lemma OneTurn(s: State, c: ClientId, i: nat)
    requires i < |s.slots| && c < |s.clients| && s.clients[c].teardown == Removing(i)
    requires s.slots[i].Some? && Promotes(s, s.slots[i].value) ==>
      s.clients[s.slots[i].value].binder != s.clients[c].binder
    ensures TurnsOver(s, DoRemoveOne(s, c), c, i)
  {}

  /** The loop comes to its end. */
  lemma {:induction false} Removal(s: State, c: ClientId, i: nat) returns (steps: seq<Step>, t: State)
    requires Inv(s) && c < |s.clients| && i <= |s.slots| && s.clients[c].teardown == Removing(i) && s.service == Free
    ensures Inv(t) && Leads(s, steps, t) && Removed(s, t, c, i)
    decreases |s.slots| - i
  {
    hide Inv, Leads, Removed, TurnsOver, Promotes, DoRemoveOne;
    var step := RemoveOne(c);
    InvSane(s);
    var u := Apply(s, step);
    StepKeepsInv(s, step);
    LeadsOne(s, step, u);
    if i < |s.slots| && (s.slots[i].Some? && Promotes(s, s.slots[i].value) ==>
      s.clients[s.slots[i].value].binder != s.clients[c].binder) {
      OneTurn(s, c, i);
      Turned(s, u, c, i);
      steps, t := Removal(u, c, i + 1);
      RemovedFrom(s, u, t, c, i);
      LeadsOn(s, [step], u, steps, t);
      steps := [step] + steps;
    } else {
      RemovedAtOnce(s, c, i);
      steps, t := [step], u;
    }
  }

  lemma InvSane(s: State)
    requires Inv(s)
    ensures Sane(s) && LivesOk(s)
  {}

  lemma Turned(s: State, u: State, c: ClientId, i: nat)
    requires i < |s.slots| && c < |s.clients| && TurnsOver(s, u, c, i)
    ensures |u.slots| == |s.slots| && |u.clients| == |s.clients|
    ensures u.clients[c].teardown == Removing(i + 1) && u.service == s.service
  {}

  /** Client `c` has given back its camera: the handle is torn down, the camera free and the loop has been through. */
  ghost predicate GivenBack(s: State, t: State, c: ClientId)
    requires c < |s.clients| && s.clients[c].hardware.Some? && s.clients[c].cameraId < |s.busy|
  {
    var h := s.clients[c].hardware.value;
    && t.open == s.open - {h} && t.released == s.released + [h] && t.next == s.next
    && t.busy == s.busy[s.clients[c].cameraId := false] && t.service == Free
    && |t.slots| == |s.slots|
    && (forall k :: 0 <= k < |s.slots| ==> t.slots[k] == SlotAfter(s, s.clients[c].binder, 0, k))
    && |t.clients| == |s.clients|
    && t.clients[c].hardware == None && t.clients[c].teardown == Idle && t.clients[c].pid == s.clients[c].pid
    && t.clients[c].life == (if s.clients[c].life.Destroying? then Destroying(true) else s.clients[c].life)
    && (forall d :: 0 <= d < |s.clients| && d != c ==> t.clients[d] == s.clients[d].(refs := t.clients[d].refs))
  }

  /** From the call to the end of the tear-down. */
  lemma TearsDown(s: State, c: ClientId) returns (path: seq<Step>, t: State)
    requires Inv(s) && s.service == Free && c < |s.clients|
    requires Callable(s, c) || DestructorCalls(s, c, s.clients[c].pid)
    requires s.clients[c].pid > 0 && s.clients[c].hardware.Some?
    ensures Leads(s, path, t) && Inv(t)
    ensures s.clients[c].cameraId < |s.busy| && GivenBack(s, t, c)
  {
    hide Inv, Leads, Removed;
    InvSane(s);
    var first, second := StartDisconnect(c, s.clients[c].pid), ReleaseHardware(c);
    var s1 := Apply(s, first);
    StepKeepsInv(s, first);
    InvSane(s1);
    LeadsOne(s, first, s1);
    var s2 := Apply(s1, second);
    StepKeepsInv(s1, second);
    InvSane(s2);
    LeadsOne(s1, second, s2);
    var loop, s3 := Removal(s2, c, 0);
    InvSane(s3);
    RemovedEnds(s2, s3, c);
    t := Apply(s3, FreeCamera(c));
    StepKeepsInv(s3, FreeCamera(c));
    LeadsOne(s3, FreeCamera(c), t);
    LeadsOn(s2, loop, s3, [FreeCamera(c)], t);
    LeadsOn(s1, [second], s2, loop + [FreeCamera(c)], t);
    LeadsOn(s, [first], s1, [second] + (loop + [FreeCamera(c)]), t);
    path := [first] + ([second] + (loop + [FreeCamera(c)]));
    BackFrom(s, s2, s3, c);
  }

  /**
    Disconnecting works: in every state of every run in which nobody connects, a
    client, or its destructor, that is called under the client's pid can go
    through all the steps of its tear-down.
   */
  lemma Disconnects(states: seq<State>, steps: seq<Step>, n: nat, c: ClientId)
    returns (path: seq<Step>, t: State)
    requires IsRun(states, steps) && n < |states| && states[n].service == Free && c < |states[n].clients|
    requires Callable(states[n], c) || DestructorCalls(states[n], c, states[n].clients[c].pid)
    requires states[n].clients[c].pid > 0 && states[n].clients[c].hardware.Some?
    ensures Leads(states[n], path, t)
    ensures states[n].clients[c].cameraId < |states[n].busy| && GivenBack(states[n], t, c)
  {
    RunKeepsInv(states, steps, n);
    path, t := TearsDown(states[n], c);
  }

  /**
    The camera of a client that disconnects while it is alive can be opened
    again exactly if no earlier camera's client has the same binder: the loop
    then finds that one and leaves the slot of the right camera as it was.
   */
  lemma ReopenedIff(s: State, t: State, c: ClientId)
    requires Inv(s) && Inv(t) && s.service == Free && Promotes(s, c) && s.clients[c].hardware.Some?
    requires s.slots[s.clients[c].cameraId] == Some(c) && GivenBack(s, t, c)
    ensures CanConnect(t, s.clients[c].cameraId) <==>
      SlotOf(s, s.clients[c].binder, 0) == s.clients[c].cameraId
  {
    var camera, b := s.clients[c].cameraId, s.clients[c].binder;
    assert Promotes(t, c) by { assert LifeOk(t.clients[c]); }
    assert t.slots[camera] == SlotAfter(s, b, 0, camera);
  }

  /** What becomes of the camera of a client that dies: given back if it had one. */
  ghost predicate LeavesNothing(s: State, t: State, c: ClientId)
    requires c < |s.clients|
  {
    match s.clients[c].hardware
    case Some(h) =>
      && t.open == s.open - {h} && t.released == s.released + [h]
      && s.clients[c].cameraId < |s.busy| && t.busy == s.busy[s.clients[c].cameraId := false]
    case None => t.open == s.open && t.released == s.released && t.busy == s.busy
  }

  /** The destructor's call, up to its end. */
  lemma DestructorRuns(s: State, c: ClientId) returns (path: seq<Step>, t: State)
    requires Inv(s) && s.service == Free && c < |s.clients|
    requires s.clients[c].life == Destroying(false) && s.clients[c].teardown == Idle
    ensures Leads(s, path, t) && Inv(t) && |t.clients| == |s.clients| && LeavesNothing(s, t, c)
    ensures t.clients[c].life == Destroying(true) && t.clients[c].teardown == Idle
  {
    hide Inv, Leads, GivenBack, LeavesNothing;
    InvSane(s);
    assert LifeOk(s.clients[c]);
    if s.clients[c].hardware.Some? {
      path, t := TearsDown(s, c);
      Dying(s, t, c);
    } else {
      var step := StartDisconnect(c, s.clients[c].pid);
      path, t := [step], Apply(s, step);
      StepKeepsInv(s, step);
      LeadsOne(s, step, t);
      NothingLeft(s, t, c);
    }
  }

  lemma NothingLeft(s: State, t: State, c: ClientId)
    requires c < |s.clients| && s.clients[c].hardware.None?
    requires t.open == s.open && t.released == s.released && t.busy == s.busy
    ensures LeavesNothing(s, t, c)
  {}

  /** The last reference takes the camera with it, whoever drops it. */
  lemma LastReferenceReturns(states: seq<State>, steps: seq<Step>, n: nat, c: ClientId, pid: int)
    returns (path: seq<Step>, t: State)
    requires IsRun(states, steps) && n < |states| && states[n].service == Free && pid > 0
    requires Callable(states[n], c) && states[n].clients[c].refs == 1
    ensures Leads(states[n], path, t) && LeavesNothing(states[n], t, c)
    ensures |t.clients| == |states[n].clients| && t.clients[c].life == Destroyed
  {
    RunKeepsInv(states, steps, n);
    var s := states[n];
    hide Inv, Leads, LeavesNothing;
    InvSane(s);
    var drop, finish := DropRef(c, pid), FinishDestroy(c);
    var s1 := Apply(s, drop);
    StepKeepsInv(s, drop);
    LeadsOne(s, drop, s1);
    var s2;
    path, s2 := DestructorRuns(s1, c);
    InvSane(s2);
    t := Apply(s2, finish);
    LeadsOne(s2, finish, t);
    LeadsOn(s1, path, s2, [finish], t);
    LeadsOn(s, [drop], s1, path + [finish], t);
    path := [drop] + (path + [finish]);
    SameCamera(s, s1, s2, t, c);
  }

  lemma SameCamera(s: State, s1: State, s2: State, t: State, c: ClientId)
    requires c < |s.clients| && c < |s1.clients| && LeavesNothing(s1, s2, c)
    requires s1.clients[c].hardware == s.clients[c].hardware && s1.clients[c].cameraId == s.clients[c].cameraId
    requires s1.open == s.open && s1.released == s.released && s1.busy == s.busy
    requires t.open == s2.open && t.released == s2.released && t.busy == s2.busy
    ensures LeavesNothing(s, t, c)
  {}

  lemma Dying(s: State, t: State, c: ClientId)
    requires c < |s.clients| && s.clients[c].hardware.Some? && s.clients[c].cameraId < |s.busy| && GivenBack(s, t, c)
    requires s.clients[c].life == Destroying(false)
    ensures |t.clients| == |s.clients| && t.clients[c].life == Destroying(true) && t.clients[c].teardown == Idle
    ensures LeavesNothing(s, t, c)
  {}

  /** Dropping a reference just taken changes nothing, so a client lives as long as somebody refers to it. */
  lemma TakenAndDropped(states: seq<State>, steps: seq<Step>, n: nat, c: ClientId, pid: int)
    requires IsRun(states, steps) && n < |states| && Promotes(states[n], c) && pid > 0
    ensures Leads(states[n], [AddRef(c), DropRef(c, pid)], states[n])
  {
    hide Leads;
    RunKeepsInv(states, steps, n);
    var s := states[n];
    var s1 := Apply(s, AddRef(c));
    LeadsOne(s, AddRef(c), s1);
    assert Apply(s1, DropRef(c, pid)).clients == s.clients;
    LeadsOne(s1, DropRef(c, pid), s);
    LeadsOn(s, [AddRef(c)], s1, [DropRef(c, pid)], s);
    assert [AddRef(c)] + [DropRef(c, pid)] == [AddRef(c), DropRef(c, pid)];
  }

  /**
    A client changes hands: its owner unlocks it, another process locks it, and
    from then on only that one can disconnect it, unlock it or reconnect it.
   */
  lemma HandOver(states: seq<State>, steps: seq<Step>, n: nat, c: ClientId, owner: int, other: int) returns (t: State)
    requires IsRun(states, steps) && n < |states| && Callable(states[n], c)
    requires 0 < owner == states[n].clients[c].pid && 0 < other
    ensures Leads(states[n], [Unlock(c, owner), Lock(c, other)], t)
    ensures t == states[n].(clients := states[n].clients[c := states[n].clients[c].(pid := other, binder := None)])
    ensures Sane(t) && Callable(t, c)
    ensures forall p: int, step: Step :: 0 < p != other && IsOwnersCall(step, c, p) ==>
      Enabled(t, step) && Apply(t, step) == t
  {
    hide Leads, Inv;
    RunKeepsInv(states, steps, n);
    var s := states[n];
    InvSane(s);
    var s1 := Apply(s, Unlock(c, owner));
    t := Apply(s1, Lock(c, other));
    LeadsOne(s, Unlock(c, owner), s1);
    LeadsOne(s1, Lock(c, other), t);
    LeadsOn(s, [Unlock(c, owner)], s1, [Lock(c, other)], t);
    assert [Unlock(c, owner)] + [Lock(c, other)] == [Unlock(c, owner), Lock(c, other)];
    assert s1.clients[c := t.clients[c]] == s.clients[c := t.clients[c]];
    forall p: int, step: Step | 0 < p != other && IsOwnersCall(step, c, p)
      ensures Enabled(t, step) && Apply(t, step) == t
    {
      NotTheOwner(t, c, p, step);
    }
  }

  /** A call that only the client's owner may make. */
  ghost predicate IsOwnersCall(step: Step, c: ClientId, p: int) {
    step == StartDisconnect(c, p) || step == Unlock(c, p) || step == Lock(c, p) ||
      (step.Reconnect? && step.client == c && step.pid == p)
  }

  lemma NotTheOwner(s: State, c: ClientId, p: int, step: Step)
    requires Sane(s) && Callable(s, c) && 0 < p && s.clients[c].pid > 0 && s.clients[c].pid != p
    requires IsOwnersCall(step, c, p)
    ensures Enabled(s, step) && Apply(s, step) == s
  {}

  /** An unlocked client can also be taken over by reconnecting to it, with a new binder. */
  lemma TakenOver(states: seq<State>, steps: seq<Step>, n: nat, c: ClientId, b: Binder, pid: int)
    requires IsRun(states, steps) && n < |states| && Callable(states[n], c) && pid > 0
    requires states[n].clients[c].pid in {0, pid} && states[n].clients[c].binder != Some(b)
    ensures Leads(states[n], [Reconnect(c, b, pid)],
      states[n].(clients := states[n].clients[c := states[n].clients[c].(pid := pid, binder := Some(b))]))
  {
    RunKeepsInv(states, steps, n);
    LeadsOne(states[n], Reconnect(c, b, pid), Apply(states[n], Reconnect(c, b, pid)));
  }

  lemma RemovedEnds(s: State, t: State, c: ClientId)
    requires c < |s.clients| && Removed(s, t, c, 0)
    ensures |t.clients| == |s.clients| && t.clients[c].teardown == Freeing
  {}

  lemma BackFrom(s: State, s2: State, s3: State, c: ClientId)
    requires Sane(s) && LivesOk(s) && c < |s.clients| && s.clients[c].hardware.Some? && s.service == Free
    requires s2 == DoReleaseHardware(WithClient(s, c, s.clients[c].(teardown := Locked)), c)
    requires Removed(s2, s3, c, 0) && s3.clients[c].cameraId < |s3.busy|
    ensures GivenBack(s, DoFreeCamera(s3, c), c)
  {
    assert forall d: ClientId :: Promotes(s2, d) == Promotes(s, d);
    SameSlots(s, s2, s.clients[c].binder, 0);
  }

  lemma SameSlots(s: State, t: State, b: Option<Binder>, k: nat)
    requires k <= |s.slots| && t.slots == s.slots
    requires forall d: ClientId :: Promotes(t, d) == Promotes(s, d)
    requires forall d: ClientId :: Promotes(s, d) ==>
      d < |t.clients| && t.clients[d].binder == s.clients[d].binder
    ensures SlotOf(t, b, k) == SlotOf(s, b, k)
    decreases |s.slots| - k
  {
    hide Promotes;
    if k < |s.slots| {
      SameSlots(s, t, b, k + 1);
    }
  }
}
