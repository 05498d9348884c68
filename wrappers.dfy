/** The optional value used where the games have `null`: the Tetris
    fields with no current piece, no queued piece or no ghost piece yet,
    and the artillery game's bullet position when no bullet is in flight. */
module Wrappers {
  datatype Option<+T> = None | Some(value: T)
}
