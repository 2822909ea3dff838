/** The finite control relation of native/root_handoff.py. */
module Handoff {
  import opened NiaCommon

  datatype Phase = Starting | Ready | Receiving | Received | Completing | Complete | Failed | Closed
  datatype Event = Open | Receive | Accept | Finish | Ack | Fail | Close

  const PHASES: set<Phase> := {Starting, Ready, Receiving, Received, Completing, Complete, Failed, Closed}
  const EVENTS: seq<Event> := [Open, Receive, Accept, Finish, Ack, Fail, Close]

  /** `transition`; a rejected event has no successor phase. */
  function Transition(phase: Phase, event: Event): Option<Phase> {
    if event == Close then Some(Closed)
    else if event == Fail && phase != Closed && phase != Complete then Some(Failed)
    else
      match (phase, event)
      case (Starting, Open) => Some(Ready)
      case (Ready, Receive) => Some(Receiving)
      case (Receiving, Accept) => Some(Received)
      case (Received, Finish) => Some(Completing)
      case (Completing, Ack) => Some(Complete)
      case _ => None
  }
}
