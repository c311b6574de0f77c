/** The task-scoped records both peers exchange over the ordered socket. */
module Messages {
  import opened Base
  import opened Dmabuf
  import HostTask
  import Transport

  const OPAQUE: u32 := 1

  datatype PhoneMsg =
    | CreateTask(oid: u64, display: u64)
    | BindTimelines(oid: u64)
    | AckConfigure(oid: u64, serial: u32)
    | Present(oid: u64, frame: HostTask.Frame, serial: u32)
    | SetContentState(oid: u64, flags: u32)
    | RequestRenderTargets(oid: u64, serial: u32)
    | DestroyTask(oid: u64)

  datatype HostMsg =
    | FormatFeedback(oid: u64, generation: u32, formats: seq<Format>)
    | RegisterRenderTarget(oid: u64, serial: u32, buffer: Buffer)
    | UnregisterRenderTarget(oid: u64, bufferId: u64)
    | Configure(oid: u64, configure: Transport.Configure)
    | BufferReleased(oid: u64, frameId: u64, bufferId: u64, point: u64)
    | Presented(oid: u64, frameId: u64)
    // Visibility, insets or close: news about the window that no table remembers.
    | Notice(oid: u64)
}
