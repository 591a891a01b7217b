/** The part of the host application the panel talks to: its warning sink. */
module Host {

  /** The host's script-editor log; `cmds.warning` appends one line to it. */
  class MayaLog {
    var warnings: seq<string>

    constructor ()
      ensures warnings == []
    {
      warnings := [];
    }

    method Warning(message: string)
      modifies this
      ensures warnings == old(warnings) + [message]
    {
      warnings := warnings + [message];
    }
  }
}
