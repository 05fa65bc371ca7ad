/** Optional values and error-or-value results, standing in for Python's
    `None` and for the exceptions the bot lets escape. */
module Outcomes {

  datatype Option<+T> = None | Some(value: T)

  datatype Result<+T, +E> = Ok(value: T) | Err(error: E)

  /** Why a step of the bot stops without effect. */
  datatype Fault =
    | UnknownUser       // `one_or_none()` returned None and the code dereferences it
    | UnknownGuild      // same, for a guild row
    | UserNotFound      // the lookup service has no such account
    | ChannelUnavailable // `get_channel` returned None and the code dereferences it
    | DuplicateGuild     // inserting a guild row whose primary key exists
    | NoGuild            // a direct message: `message.guild` is None and the code dereferences it
}
