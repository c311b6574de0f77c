/** Android-side presentation stream of one task. */
module Transport {
  import opened Base
  import opened Dmabuf

  datatype Configure = Configure(serial: u32, width: u32, height: u32, refreshMillihz: u32)

  datatype AcceptedFrame = AcceptedFrame(frame: u64, buffer: Buffer, damage: seq<Rect>)

  datatype TransportError =
    | Unconfigured
    | InvalidSerial(serial: u32)
    | SizeMismatch
    | UnsupportedFormat(format: Format)
    | BufferInFlight(buffer: u64)
    | UnknownFrame(frame: u64)
    | MissingFence
    | InvalidBuffer
    | InvalidDamage
    | FrameIdExhausted

  datatype Presentation = Presentation(
    feedback: set<Format>,
    latest: Option<Configure>,
    acked: Option<u32>,
    inFlight: map<u64, u64>,
    busy: set<u64>,
    nextFrame: u64)
  {
    ghost predicate Valid() {
      && Holds(inFlight, busy)
      && (forall f :: f in inFlight ==> 0 < f <= nextFrame)
      && (acked.Some? ==> latest.Some? && acked.value == latest.value.serial)
    }

    function Configured(c: Configure): Presentation {
      this.(latest := Some(c),
            acked := if latest.Some? && latest.value.serial == c.serial then acked else None)
    }

    predicate Acknowledges(serial: u32) {
      latest.Some? && latest.value.serial == serial
    }

    /** The first reason `submit` has to refuse, in the order it looks. */
    function SubmitError(buffer: Buffer, damage: seq<Rect>, fence: bool): Option<TransportError> {
      if latest.None? || acked != Some(latest.value.serial) then Some(Unconfigured)
      else if !buffer.Valid() then Some(InvalidBuffer)
      else if buffer.width != latest.value.width || buffer.height != latest.value.height then Some(SizeMismatch)
      else if buffer.format !in feedback then Some(UnsupportedFormat(buffer.format))
      else if !fence then Some(MissingFence)
      else if buffer.id in busy then Some(BufferInFlight(buffer.id))
      else if exists i :: 0 <= i < |damage| && !damage[i].Fits(buffer.width, buffer.height) then Some(InvalidDamage)
      else if nextFrame + 1 == U64_LIMIT then Some(FrameIdExhausted)
      else None
    }

    /** A frame is taken exactly when its configure is acknowledged, its fenced, free buffer is
        well formed, of the configured size and in an offered format, its damage touches no
        pixel outside, and there is an identity left. */
    lemma SubmitsExactly(buffer: Buffer, damage: seq<Rect>, fence: bool)
      ensures SubmitError(buffer, damage, fence).None? <==>
        && latest.Some? && acked == Some(latest.value.serial)
        && buffer.Valid() && buffer.width == latest.value.width && buffer.height == latest.value.height
        && buffer.format in feedback && fence && buffer.id !in busy
        && DamageInside(damage, buffer.width, buffer.height) && nextFrame + 1 < U64_LIMIT
    {
      InsideMeansFits(damage, buffer.width, buffer.height);
      hide DamageInside;
    }

    /** A configure that changes nothing but the refresh rate interrupts nothing. */
    lemma RefreshDoesNotInterrupt(c: Configure, buffer: Buffer, damage: seq<Rect>, fence: bool)
      requires latest.Some? && c == latest.value.(refreshMillihz := c.refreshMillihz)
      ensures Configured(c).SubmitError(buffer, damage, fence) == SubmitError(buffer, damage, fence)
    {
    }

    function Submitted(buffer: Buffer): Presentation
      requires nextFrame + 1 < U64_LIMIT
    {
      this.(nextFrame := nextFrame + 1,
            inFlight := inFlight[nextFrame + 1 := buffer.id],
            busy := busy + {buffer.id})
    }

    /** Both a release and the rollback of an unsubmitted frame end up here. */
    function Retired(frame: u64): Presentation
      requires frame in inFlight
    {
      this.(inFlight := inFlight - {frame}, busy := busy - {inFlight[frame]})
    }

    lemma SubmittedKeepsValid(buffer: Buffer)
      requires Valid() && nextFrame + 1 < U64_LIMIT && buffer.id !in busy
      ensures Submitted(buffer).Valid()
      ensures nextFrame + 1 !in inFlight
    {
      HoldsAdd(inFlight, busy, nextFrame + 1, buffer.id);
    }

    lemma RetiredKeepsValid(frame: u64)
      requires Valid() && frame in inFlight
      ensures Retired(frame).Valid()
    {
      HoldsRemove(inFlight, busy, frame);
    }

    /** A frame that is submitted and then rolled back leaves only its identity spent. */
    lemma RollbackRestores(buffer: Buffer)
      requires Valid() && nextFrame + 1 < U64_LIMIT && buffer.id !in busy
      ensures Submitted(buffer).Retired(nextFrame + 1) == this.(nextFrame := nextFrame + 1)
    {
      var r := Submitted(buffer).Retired(nextFrame + 1);
      assert r.inFlight == inFlight;
      assert r.busy == busy;
    }
  }

  const IDLE := Presentation({}, None, None, map[], {}, 0)

  /** The stream as the source keeps it: six fields updated in place. */
  class PresentationState {
    var feedback: set<Format>
    var latest: Option<Configure>
    var acked: Option<u32>
    var inFlight: map<u64, u64>
    var busy: set<u64>
    var nextFrame: u64

    ghost function View(): Presentation reads this {
      Presentation(feedback, latest, acked, inFlight, busy, nextFrame)
    }

    constructor ()
      ensures View() == IDLE && View().Valid()
    {
      feedback, latest, acked, inFlight, busy, nextFrame := {}, None, None, map[], {}, 0;
    }

    method ReplaceFeedback(formats: set<Format>)
      modifies this
      ensures View() == old(View()).(feedback := formats)
    {
      feedback := formats;
    }

    method ApplyConfigure(configure: Configure)
      modifies this
      ensures View() == old(View()).Configured(configure)
    {
      if latest.None? || latest.value.serial != configure.serial {
        acked := None;
      }
      latest := Some(configure);
    }

    method Acknowledge(serial: u32) returns (r: Result<(), TransportError>)
      modifies this
      ensures r.Ok? <==> old(View()).Acknowledges(serial)
      ensures r.Ok? ==> View() == old(View()).(acked := Some(serial))
      ensures r.Err? ==> r.error == InvalidSerial(serial) && View() == old(View())
    {
      if latest.None? || latest.value.serial != serial {
        return Err(InvalidSerial(serial));
      }
      acked := Some(serial);
      return Ok(());
    }

    method Submit(buffer: Buffer, damage: seq<Rect>, fence: bool)
      returns (r: Result<AcceptedFrame, TransportError>)
      requires View().Valid()
      modifies this
      ensures View().Valid()
      ensures var e := old(View()).SubmitError(buffer, damage, fence);
              if e.Some? then r == Err(e.value) && View() == old(View())
              else old(nextFrame) + 1 < U64_LIMIT && View() == old(View()).Submitted(buffer)
                   && r == Ok(AcceptedFrame(old(nextFrame) + 1, buffer, damage))
      ensures r.Ok? ==> r.value.frame !in old(inFlight) && buffer.id !in old(busy) && inFlight[r.value.frame] == buffer.id
    {
      if latest.None? {
        return Err(Unconfigured);
      }
      var configure := latest.value;
      if acked != Some(configure.serial) {
        return Err(Unconfigured);
      }
      if !buffer.Valid() {
        return Err(InvalidBuffer);
      }
      if buffer.width != configure.width || buffer.height != configure.height {
        return Err(SizeMismatch);
      }
      if buffer.format !in feedback {
        return Err(UnsupportedFormat(buffer.format));
      }
      if !fence {
        return Err(MissingFence);
      }
      if buffer.id in busy {
        return Err(BufferInFlight(buffer.id));
      }
      for i := 0 to |damage|
        invariant View() == old(View())
        invariant forall k :: 0 <= k < i ==> damage[k].Fits(buffer.width, buffer.height)
      {
        if !damage[i].Fits(buffer.width, buffer.height) {
          return Err(InvalidDamage);
        }
      }
      if nextFrame + 1 == U64_LIMIT {
        return Err(FrameIdExhausted);
      }
      View().SubmittedKeepsValid(buffer);
      nextFrame := nextFrame + 1;
      busy := busy + {buffer.id};
      inFlight := inFlight[nextFrame := buffer.id];
      return Ok(AcceptedFrame(nextFrame, buffer, damage));
    }

    method Release(frame: u64, fence: bool) returns (r: Result<u64, TransportError>)
      requires View().Valid()
      modifies this
      ensures View().Valid()
      ensures r.Ok? <==> fence && frame in old(inFlight)
      ensures r.Ok? ==> r.value == old(inFlight)[frame] && View() == old(View()).Retired(frame)
      ensures r.Err? ==> View() == old(View())
    {
      if !fence {
        return Err(MissingFence);
      }
      r := CancelUnsubmitted(frame);
    }

    method CancelUnsubmitted(frame: u64) returns (r: Result<u64, TransportError>)
      requires View().Valid()
      modifies this
      ensures View().Valid()
      ensures r.Ok? <==> frame in old(inFlight)
      ensures r.Ok? ==> r.value == old(inFlight)[frame] && View() == old(View()).Retired(frame)
      ensures r.Err? ==> r.error == UnknownFrame(frame) && View() == old(View())
    {
      if frame !in inFlight {
        return Err(UnknownFrame(frame));
      }
      View().RetiredKeepsValid(frame);
      var buffer := inFlight[frame];
      inFlight := inFlight - {frame};
      busy := busy - {buffer};
      return Ok(buffer);
    }
  }
}
