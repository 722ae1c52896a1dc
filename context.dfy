/**
 * The callback context handed to a handler's callback. Only the `args` slot
 * is written by the handlers modelled here; user code may also hang its own
 * attributes on the context, kept here as a map.
 */
module Contexts {

  import opened Wrappers

  class CallbackContext {
    /** `context.args`: the command's arguments, `None` until a handler sets it. */
    var args: Option<seq<string>>
    /** Attributes that user code added to the context. */
    var userAttributes: map<string, string>

    constructor ()
      ensures args == None && userAttributes == map[]
    {
      args := None;
      userAttributes := map[];
    }
  }

}
