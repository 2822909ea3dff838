/** What a handoff is about: the scopes of native/root_handoff.py. */
module Scopes {

  import opened Bytes

  /** `deadline` is on the boot-time clock, in milliseconds. */
  datatype Scope = Scope(
    generation: Data, rootManifest: Data, archive: Data, worker: Data, stage: Data,
    size: int, entries: int, deadline: int)

  /** The mounted root, as the kernel identifies it. */
  datatype Identity = Identity(mountId: int, inode: int, deviceMajor: int, deviceMinor: int)

  /** A channel for the first handoff, or for looking again at a root already held. */
  datatype ChannelScope =
    | Initial(scope: Scope)
    | Reinspection(scope: Scope, originalDeadline: int, identity: Identity)
}
