/** Host-side presentation stream of one Android task object. */
module HostTask {
  import opened Base
  import opened Serial
  import opened Dmabuf

  const MAX_FORMATS := 256
  const MAX_DAMAGE_RECTS := 256
  const MAX_BUFFERS_PER_TASK := 256
  const NO_MODIFIER: u64 := 0xFFFF_FFFF_FFFF_FFFF

  datatype HostConfigure = HostConfigure(serial: u32, width: u32, height: u32)

  datatype Pending = Pending(buffer: u64, releasePoint: u64)

  datatype WireFault = BadConfigure | BadFeedback | BadModifier | BadBuffer | BadIdentity | ZeroObject

  datatype TaskStateError =
    | WrongObject
    | TimelinesAlreadyBound
    | TimelinesUnbound
    | FeedbackRegression(previousGeneration: u32, generation: u32)
    | MissingConfigure
    | StaleConfigure(expected: u32, actual: u32)
    | UnacknowledgedConfigure
    | DuplicateBuffer(buffer: u64)
    | BufferLimit
    | UnknownBuffer(buffer: u64)
    | BufferInFlight(buffer: u64)
    | DuplicateFrame(frame: u64)
    | UnknownFrame(frame: u64)
    | ReleaseMismatch
    | TimelineRegression(previousPoint: u64, point: u64)
    | SizeMismatch
    | UnsupportedFormat
    | InvalidDamage
    | Wire(fault: WireFault)

  datatype Frame = Frame(frame: u64, buffer: u64, acquirePoint: u64, releasePoint: u64, damage: seq<Rect>)

  predicate ConfigureBounds(serial: u32, width: u32, height: u32, refreshMillihz: u32) {
    serial != 0 && 0 < width <= 16384 && 0 < height <= 16384 && 0 < refreshMillihz <= 1_000_000
  }

  ghost function Owners(inFlight: map<u64, Pending>): map<u64, u64> {
    map f | f in inFlight :: inFlight[f].buffer
  }

  datatype Task = Task(
    objectId: u64,
    timelinesBound: bool,
    feedbackGeneration: u32,
    feedback: set<Format>,
    configure: Option<HostConfigure>,
    acked: Option<u32>,
    buffers: map<u64, Buffer>,
    inFlight: map<u64, Pending>,
    busy: set<u64>,
    lastAcquire: u64,
    lastRelease: u64)
  {
    ghost predicate Valid() {
      && objectId != 0
      && Holds(Owners(inFlight), busy)
      && busy <= buffers.Keys
      && |buffers| <= MAX_BUFFERS_PER_TASK
      && (forall b :: b in buffers ==> Registrable(buffers[b]) && buffers[b].id == b)
      && PointsOrdered()
      && (acked.Some? ==> configure.Some? && acked.value == configure.value.serial)
      && (inFlight != map[] ==> timelinesBound)
    }

    /** In-flight release points are spent and pairwise different. */
    ghost predicate PointsOrdered() {
      && (forall f :: f in inFlight ==> inFlight[f].releasePoint <= lastRelease)
      && (forall f, g :: f in inFlight && g in inFlight && inFlight[f].releasePoint == inFlight[g].releasePoint ==> f == g)
    }

    static predicate Registrable(b: Buffer) {
      b.Valid() && b.id != 0 && b.format.modifier != NO_MODIFIER
    }

    function FeedbackError(generation: u32, formats: set<Format>): Option<TaskStateError> {
      if generation <= feedbackGeneration then Some(FeedbackRegression(feedbackGeneration, generation))
      else if formats == {} || |formats| > MAX_FORMATS then Some(Wire(BadFeedback))
      else if exists f :: f in formats && f.modifier == NO_MODIFIER then Some(Wire(BadModifier))
      else None
    }

    function Configured(serial: u32, width: u32, height: u32): Task {
      this.(configure := Some(HostConfigure(serial, width, height)),
            acked := if configure.Some? && configure.value.serial == serial then acked else None)
    }

    function AckError(serial: u32): Option<TaskStateError> {
      if configure.None? then Some(MissingConfigure)
      else if serial == configure.value.serial || SerialPrecedes(serial, configure.value.serial) then None
      else Some(StaleConfigure(configure.value.serial, serial))
    }

    /** An acknowledgement of a superseded serial is accepted and changes nothing. */
    function Acknowledged(serial: u32): Task
      requires AckError(serial).None?
    {
      if serial == configure.value.serial then this.(acked := Some(serial)) else this
    }

    function RegisterError(b: Buffer): Option<TaskStateError> {
      if !b.Valid() then Some(Wire(BadBuffer))
      else if b.id == 0 || b.format.modifier == NO_MODIFIER then Some(Wire(BadIdentity))
      else if b.id in buffers then Some(DuplicateBuffer(b.id))
      else if |buffers| >= MAX_BUFFERS_PER_TASK then Some(BufferLimit)
      else None
    }

    function Registered(b: Buffer): Task {
      this.(buffers := buffers[b.id := b])
    }

    function UnregisterError(b: u64): Option<TaskStateError> {
      if b in busy then Some(BufferInFlight(b))
      else if b !in buffers then Some(UnknownBuffer(b))
      else None
    }

    function Unregistered(b: u64): Task {
      this.(buffers := buffers - {b})
    }

    function PointsError(acquire: u64, release: u64): Option<TaskStateError> {
      if acquire <= lastAcquire then Some(TimelineRegression(lastAcquire, acquire))
      else if release <= lastRelease then Some(TimelineRegression(lastRelease, release))
      else None
    }

    function PresentError(to: u64, f: Frame, serial: u32): Option<TaskStateError> {
      if to != objectId then Some(WrongObject)
      else if !timelinesBound then Some(TimelinesUnbound)
      else if configure.None? then Some(MissingConfigure)
      else if serial != configure.value.serial then Some(StaleConfigure(configure.value.serial, serial))
      else if acked != Some(serial) then Some(UnacknowledgedConfigure)
      else if f.buffer !in buffers then Some(UnknownBuffer(f.buffer))
      else if (buffers[f.buffer].width, buffers[f.buffer].height) != (configure.value.width, configure.value.height)
        then Some(SizeMismatch)
      else if buffers[f.buffer].format !in feedback then Some(UnsupportedFormat)
      else if f.buffer in busy then Some(BufferInFlight(f.buffer))
      else if f.frame in inFlight then Some(DuplicateFrame(f.frame))
      else if PointsError(f.acquirePoint, f.releasePoint).Some? then PointsError(f.acquirePoint, f.releasePoint)
      else if |f.damage| > MAX_DAMAGE_RECTS
        || exists i :: 0 <= i < |f.damage| && !f.damage[i].Fits(configure.value.width, configure.value.height)
        then Some(InvalidDamage)
      else None
    }

    function Presented(f: Frame): Task {
      this.(lastAcquire := f.acquirePoint, lastRelease := f.releasePoint,
            busy := busy + {f.buffer},
            inFlight := inFlight[f.frame := Pending(f.buffer, f.releasePoint)])
    }

    function DiscardError(to: u64, f: Frame, serial: u32): Option<TaskStateError> {
      if to != objectId then Some(WrongObject)
      else if !timelinesBound then Some(TimelinesUnbound)
      else if configure.None? then Some(MissingConfigure)
      else if !SerialPrecedes(serial, configure.value.serial) then Some(StaleConfigure(configure.value.serial, serial))
      else if f.buffer in busy then Some(BufferInFlight(f.buffer))
      else if f.frame in inFlight then Some(DuplicateFrame(f.frame))
      else PointsError(f.acquirePoint, f.releasePoint)
    }

    /** A superseded frame is consumed without ever being owned by the host. */
    function Discarded(f: Frame): Task {
      this.(lastAcquire := f.acquirePoint, lastRelease := f.releasePoint)
    }

    function ReleaseError(frame: u64, buffer: u64, point: u64): Option<TaskStateError> {
      if frame !in inFlight then Some(UnknownFrame(frame))
      else if inFlight[frame] != Pending(buffer, point) then Some(ReleaseMismatch)
      else None
    }

    function Released(frame: u64): Task
      requires frame in inFlight
    {
      this.(inFlight := inFlight - {frame}, busy := busy - {inFlight[frame].buffer})
    }

    /** What an accepted frame has shown about itself. */
    lemma AcceptedFrameIsNew(to: u64, f: Frame, serial: u32)
      requires PresentError(to, f, serial).None?
      ensures CanOwn(f)
    {
    }

    /** A frame is accepted exactly when it is for this bound task under its current,
        acknowledged configure, its registered buffer is free, in an offered format and of
        exactly the configured size, its identity is free, its points are later than every
        earlier one, and its damage is bounded and touches no pixel outside. */
    lemma AcceptsExactly(to: u64, f: Frame, serial: u32)
      ensures PresentError(to, f, serial).None? <==>
        && to == objectId && timelinesBound
        && configure.Some? && configure.value.serial == serial && acked == Some(serial)
        && f.buffer in buffers && f.buffer !in busy && f.frame !in inFlight
        && buffers[f.buffer].width == configure.value.width && buffers[f.buffer].height == configure.value.height
        && buffers[f.buffer].format in feedback
        && f.acquirePoint > lastAcquire && f.releasePoint > lastRelease
        && |f.damage| <= MAX_DAMAGE_RECTS && DamageInside(f.damage, configure.value.width, configure.value.height)
    {
      if configure.Some? { InsideMeansFits(f.damage, configure.value.width, configure.value.height); }
      hide DamageInside;
    }

    /** A frame is consumed unseen exactly when it is for this bound task under a configure the
        current one supersedes, its buffer and identity are free, and its points are later. */
    lemma DiscardsExactly(to: u64, f: Frame, serial: u32)
      ensures DiscardError(to, f, serial).None? <==>
        && to == objectId && timelinesBound
        && configure.Some? && SerialPrecedes(serial, configure.value.serial)
        && f.buffer !in busy && f.frame !in inFlight
        && f.acquirePoint > lastAcquire && f.releasePoint > lastRelease
    {
    }

    /** Feedback is taken exactly if it is newer, names 1 to 256 formats and not the reserved
        modifier. */
    lemma OffersExactly(generation: u32, formats: set<Format>)
      ensures FeedbackError(generation, formats).None? <==>
        generation > feedbackGeneration && 1 <= |formats| <= 256 && forall f :: f in formats ==> f.modifier != 0xFFFF_FFFF_FFFF_FFFF
    {
      if formats != {} { var f :| f in formats; assert |formats - {f}| == |formats| - 1; }
    }

    /** A target is lent exactly if it can be imported, its identity is free and fewer than 256
        are lent; it is taken back exactly if it is lent and no frame holds it. */
    lemma LendsExactly(b: Buffer, id: u64)
      ensures RegisterError(b).None? <==> Registrable(b) && b.id !in buffers && |buffers| < 256
      ensures UnregisterError(id).None? <==> id in buffers && id !in busy
      ensures Valid() ==> (id in busy <==> exists f :: f in inFlight && inFlight[f].buffer == id)
    {
      if Valid() {
        assert forall f :: f in inFlight ==> Owners(inFlight)[f] == inFlight[f].buffer;
        if id in busy {
          var f :| f in Owners(inFlight) && Owners(inFlight)[f] == id;
          assert f in inFlight;
        }
        if f :| f in inFlight && inFlight[f].buffer == id {
          assert Owners(inFlight)[f] in Owners(inFlight).Values;
        }
      }
    }

    ghost predicate CanOwn(f: Frame) {
      && timelinesBound
      && f.buffer in buffers
      && f.buffer !in busy
      && f.frame !in inFlight
      && lastRelease < f.releasePoint
    }

    lemma PresentedKeepsValid(f: Frame)
      requires Valid() && CanOwn(f)
      ensures Presented(f).Valid()
    {
      assert Owners(Presented(f).inFlight) == Owners(inFlight)[f.frame := f.buffer];
      HoldsAdd(Owners(inFlight), busy, f.frame, f.buffer);
    }

    lemma ReleasedKeepsValid(frame: u64)
      requires Valid() && frame in inFlight
      ensures Released(frame).Valid()
    {
      HoldsRemove(Owners(inFlight), busy, frame);
      assert Owners(Released(frame).inFlight) == Owners(inFlight) - {frame};
    }

    lemma AckKeepsValid(serial: u32)
      requires Valid() && AckError(serial).None?
      ensures Acknowledged(serial).Valid()
    {
    }

    lemma BindingKeepsValid()
      requires Valid()
      ensures this.(timelinesBound := true).Valid()
    {
    }

    lemma PublishingKeepsValid(generation: u32, formats: set<Format>, serial: u32, width: u32, height: u32)
      requires Valid()
      ensures this.(feedbackGeneration := generation, feedback := formats).Valid()
      ensures Configured(serial, width, height).Valid()
    {
    }

    lemma RegisteredKeepsValid(b: Buffer)
      requires Valid() && RegisterError(b).None?
      ensures Registered(b).Valid()
    {
      hide Holds, Owners, Registrable;
      assert Registrable(b) by { RegistrableBuffer(b); }
      assert Registered(b).buffers.Keys == buffers.Keys + {b.id};
    }

    lemma RegistrableBuffer(b: Buffer)
      requires RegisterError(b).None?
      ensures Registrable(b)
    {
    }

    lemma UnregisteredKeepsValid(b: u64)
      requires Valid() && UnregisterError(b).None?
      ensures Unregistered(b).Valid()
      ensures |Unregistered(b).buffers| == |buffers| - 1
    {
      hide Holds, Owners, Registrable;
      assert Unregistered(b).buffers.Keys == buffers.Keys - {b};
    }

    /** Releasing, or rolling back, an accepted frame undoes everything but the spent points. */
    lemma PresentThenRelease(f: Frame)
      requires CanOwn(f)
      ensures Presented(f).ReleaseError(f.frame, f.buffer, f.releasePoint).None?
      ensures Presented(f).Released(f.frame) == Discarded(f)
    {
      assert Presented(f).Released(f.frame).inFlight == inFlight;
      assert Presented(f).Released(f.frame).busy == busy;
    }

    /** Lending a target and withdrawing it after a failed send is the identity. */
    lemma LendRollback(b: Buffer)
      requires b.id !in buffers && busy <= buffers.Keys
      ensures Registered(b).UnregisterError(b.id).None?
      ensures Registered(b).Unregistered(b.id) == this
    {
      assert Registered(b).Unregistered(b.id).buffers == buffers;
    }

    /** Restoring a target whose revocation could not be sent is the identity, and the
        registration that restores it can never be refused. */
    lemma RevokeRollback(id: u64)
      requires Valid() && UnregisterError(id).None?
      ensures Unregistered(id).RegisterError(buffers[id]).None?
      ensures Unregistered(id).Registered(buffers[id]) == this
    {
      UnregisteredKeepsValid(id);
      assert Unregistered(id).Registered(buffers[id]).buffers == buffers;
    }

    /** Frames are accepted under the current serial and discarded under an older one;
        no frame qualifies for both. */
    lemma AcceptOrDiscardExclusive(to: u64, f: Frame, serial: u32)
      ensures !(PresentError(to, f, serial).None? && DiscardError(to, f, serial).None?)
      ensures DiscardError(to, f, serial).None? ==> PresentError(to, f, serial) == Some(StaleConfigure(configure.value.serial, serial))
    {
    }
  }

  function NewTask(objectId: u64): Task {
    Task(objectId, false, 0, {}, None, None, map[], map[], {}, 0, 0)
  }

  /** The state machine with its fields updated in place. */
  class TaskPresentationState {
    const objectId: u64
    var timelinesBound: bool
    var feedbackGeneration: u32
    var feedback: set<Format>
    var configure: Option<HostConfigure>
    var acked: Option<u32>
    var buffers: map<u64, Buffer>
    var inFlight: map<u64, Pending>
    var busy: set<u64>
    var lastAcquire: u64
    var lastRelease: u64

    ghost function View(): Task reads this {
      Task(objectId, timelinesBound, feedbackGeneration, feedback, configure, acked, buffers, inFlight, busy, lastAcquire, lastRelease)
    }

    constructor Init(objectId: u64)
      ensures View() == NewTask(objectId)
    {
      this.objectId := objectId;
      timelinesBound, feedbackGeneration, feedback, configure, acked := false, 0, {}, None, None;
      buffers, inFlight, busy, lastAcquire, lastRelease := map[], map[], {}, 0, 0;
    }

    static method New(objectId: u64) returns (r: Result<TaskPresentationState, TaskStateError>)
      ensures objectId == 0 ==> r == Err(Wire(ZeroObject))
      ensures objectId != 0 ==> r.Ok? && fresh(r.value) && r.value.View() == NewTask(objectId) && r.value.View().Valid()
    {
      if objectId == 0 {
        return Err(Wire(ZeroObject));
      }
      var state := new TaskPresentationState.Init(objectId);
      return Ok(state);
    }

    method BindTimelines() returns (r: Result<(), TaskStateError>)
      requires View().Valid()
      modifies this
      ensures View().Valid()
      ensures r == if old(timelinesBound) then Err(TimelinesAlreadyBound) else Ok(())
      ensures View() == old(View()).(timelinesBound := true)
    {
      View().BindingKeepsValid();
      hide Task.Valid;
      if timelinesBound {
        return Err(TimelinesAlreadyBound);
      }
      timelinesBound := true;
      return Ok(());
    }

    method ReplaceFeedback(generation: u32, formats: seq<Format>) returns (r: Result<(), TaskStateError>)
      requires View().Valid()
      modifies this
      ensures View().Valid()
      ensures var collected := set f | f in formats;
              var e := old(View()).FeedbackError(generation, collected);
              if e.Some? then r == Err(e.value) && View() == old(View())
              else r == Ok(()) && View() == old(View()).(feedbackGeneration := generation, feedback := collected)
    {
      var collected := set f | f in formats;
      View().PublishingKeepsValid(generation, collected, 0, 0, 0);
      hide Task.Valid;
      if generation <= feedbackGeneration {
        return Err(FeedbackRegression(feedbackGeneration, generation));
      }
      if collected == {} || |collected| > MAX_FORMATS {
        return Err(Wire(BadFeedback));
      }
      if exists f :: f in collected && f.modifier == NO_MODIFIER {
        return Err(Wire(BadModifier));
      }
      feedbackGeneration := generation;
      feedback := collected;
      return Ok(());
    }

    method ApplyConfigure(serial: u32, width: u32, height: u32, refreshMillihz: u32)
      returns (r: Result<(), TaskStateError>)
      requires View().Valid()
      modifies this
      ensures View().Valid()
      ensures r == if ConfigureBounds(serial, width, height, refreshMillihz) then Ok(()) else Err(Wire(BadConfigure))
      ensures View() == if r.Ok? then old(View()).Configured(serial, width, height) else old(View())
    {
      View().PublishingKeepsValid(0, {}, serial, width, height);
      hide Task.Valid;
      if !ConfigureBounds(serial, width, height, refreshMillihz) {
        return Err(Wire(BadConfigure));
      }
      if configure.None? || configure.value.serial != serial {
        acked := None;
      }
      configure := Some(HostConfigure(serial, width, height));
      return Ok(());
    }

    method AcknowledgeConfigure(serial: u32) returns (r: Result<(), TaskStateError>)
      requires View().Valid()
      modifies this
      ensures View().Valid()
      ensures var e := old(View()).AckError(serial);
              if e.Some? then r == Err(e.value) && View() == old(View())
              else r == Ok(()) && View() == old(View()).Acknowledged(serial)
    {
      if View().AckError(serial).None? { View().AckKeepsValid(serial); }
      hide Task.Valid;
      if configure.None? {
        return Err(MissingConfigure);
      }
      var expected := configure.value.serial;
      if serial == expected {
        acked := Some(serial);
        return Ok(());
      }
      if SerialPrecedes(serial, expected) {
        return Ok(());
      }
      return Err(StaleConfigure(expected, serial));
    }

    method RegisterBuffer(b: Buffer) returns (r: Result<(), TaskStateError>)
      requires View().Valid()
      modifies this
      ensures View().Valid()
      ensures var e := old(View()).RegisterError(b);
              if e.Some? then r == Err(e.value) && View() == old(View())
              else r == Ok(()) && View() == old(View()).Registered(b)
    {
      if !b.Valid() {
        return Err(Wire(BadBuffer));
      }
      if b.id == 0 || b.format.modifier == NO_MODIFIER {
        return Err(Wire(BadIdentity));
      }
      if b.id in buffers {
        return Err(DuplicateBuffer(b.id));
      }
      if |buffers| >= MAX_BUFFERS_PER_TASK {
        return Err(BufferLimit);
      }
      View().RegisteredKeepsValid(b);
      buffers := buffers[b.id := b];
      return Ok(());
    }

    method UnregisterBuffer(b: u64) returns (r: Result<Buffer, TaskStateError>)
      requires View().Valid()
      modifies this
      ensures View().Valid()
      ensures var e := old(View()).UnregisterError(b);
              if e.Some? then r == Err(e.value) && View() == old(View())
              else r == Ok(old(buffers)[b]) && View() == old(View()).Unregistered(b)
    {
      if b in busy {
        return Err(BufferInFlight(b));
      }
      if b !in buffers {
        return Err(UnknownBuffer(b));
      }
      View().UnregisteredKeepsValid(b);
      var metadata := buffers[b];
      buffers := buffers - {b};
      return Ok(metadata);
    }

    method Present(to: u64, f: Frame, serial: u32) returns (r: Result<Frame, TaskStateError>)
      requires View().Valid()
      modifies this
      ensures View().Valid()
      ensures var e := old(View()).PresentError(to, f, serial);
              if e.Some? then r == Err(e.value) && View() == old(View())
              else r == Ok(f) && View() == old(View()).Presented(f)
    {
      if View().PresentError(to, f, serial).None? {
        View().AcceptedFrameIsNew(to, f, serial);
        View().PresentedKeepsValid(f);
      }
      hide Task.Valid, Rect.Fits;
      if to != objectId {
        return Err(WrongObject);
      }
      if !timelinesBound {
        return Err(TimelinesUnbound);
      }
      if configure.None? {
        return Err(MissingConfigure);
      }
      var current := configure.value;
      if serial != current.serial {
        return Err(StaleConfigure(current.serial, serial));
      }
      if acked != Some(current.serial) {
        return Err(UnacknowledgedConfigure);
      }
      if f.buffer !in buffers {
        return Err(UnknownBuffer(f.buffer));
      }
      var metadata := buffers[f.buffer];
      if (metadata.width, metadata.height) != (current.width, current.height) {
        return Err(SizeMismatch);
      }
      if metadata.format !in feedback {
        return Err(UnsupportedFormat);
      }
      if f.buffer in busy {
        return Err(BufferInFlight(f.buffer));
      }
      if f.frame in inFlight {
        return Err(DuplicateFrame(f.frame));
      }
      var ordered := RequireNewerPoints(f.acquirePoint, f.releasePoint);
      if ordered.Err? {
        return Err(ordered.error);
      }
      var inside := DamageFits(f.damage, current.width, current.height);
      if !inside {
        return Err(InvalidDamage);
      }
      lastAcquire, lastRelease := f.acquirePoint, f.releasePoint;
      busy := busy + {f.buffer};
      inFlight := inFlight[f.frame := Pending(f.buffer, f.releasePoint)];
      return Ok(f);
    }

    /** A bounded list of rectangles, all inside the configured size. */
    static method DamageFits(damage: seq<Rect>, width: u32, height: u32) returns (ok: bool)
      ensures ok <==> |damage| <= MAX_DAMAGE_RECTS && forall i :: 0 <= i < |damage| ==> damage[i].Fits(width, height)
    {
      if |damage| > MAX_DAMAGE_RECTS {
        return false;
      }
      for i := 0 to |damage|
        invariant forall k :: 0 <= k < i ==> damage[k].Fits(width, height)
      {
        if !damage[i].Fits(width, height) {
          return false;
        }
      }
      return true;
    }

    method RequireNewerPoints(acquire: u64, release: u64) returns (r: Result<(), TaskStateError>)
      ensures var e := View().PointsError(acquire, release);
              r == if e.Some? then Err(e.value) else Ok(())
    {
      if acquire <= lastAcquire {
        return Err(TimelineRegression(lastAcquire, acquire));
      }
      if release <= lastRelease {
        return Err(TimelineRegression(lastRelease, release));
      }
      return Ok(());
    }

    method DiscardSupersededPresent(to: u64, f: Frame, serial: u32) returns (r: Result<Pending, TaskStateError>)
      requires View().Valid()
      modifies this
      ensures View().Valid()
      ensures var e := old(View()).DiscardError(to, f, serial);
              if e.Some? then r == Err(e.value) && View() == old(View())
              else r == Ok(Pending(f.buffer, f.releasePoint)) && View() == old(View()).Discarded(f)
    {
      if to != objectId {
        return Err(WrongObject);
      }
      if !timelinesBound {
        return Err(TimelinesUnbound);
      }
      if configure.None? {
        return Err(MissingConfigure);
      }
      if !SerialPrecedes(serial, configure.value.serial) {
        return Err(StaleConfigure(configure.value.serial, serial));
      }
      if f.buffer in busy {
        return Err(BufferInFlight(f.buffer));
      }
      if f.frame in inFlight {
        return Err(DuplicateFrame(f.frame));
      }
      var ordered := RequireNewerPoints(f.acquirePoint, f.releasePoint);
      if ordered.Err? {
        return Err(ordered.error);
      }
      lastAcquire, lastRelease := f.acquirePoint, f.releasePoint;
      return Ok(Pending(f.buffer, f.releasePoint));
    }

    /** `release`; `cancel_unsubmitted` checks and changes exactly the same things. */
    method Release(frame: u64, buffer: u64, point: u64) returns (r: Result<Pending, TaskStateError>)
      requires View().Valid()
      modifies this
      ensures View().Valid()
      ensures var e := old(View()).ReleaseError(frame, buffer, point);
              if e.Some? then r == Err(e.value) && View() == old(View())
              else r == Ok(Pending(buffer, point)) && View() == old(View()).Released(frame)
    {
      if frame !in inFlight {
        return Err(UnknownFrame(frame));
      }
      var pending := inFlight[frame];
      if pending.buffer != buffer || pending.releasePoint != point {
        return Err(ReleaseMismatch);
      }
      View().ReleasedKeepsValid(frame);
      inFlight := inFlight - {frame};
      busy := busy - {buffer};
      return Ok(pending);
    }
  }
}
