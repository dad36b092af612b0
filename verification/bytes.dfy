/** The byte type shared by the tape codec and the transcoder. */
module Bytes {

  type byte = x: int | 0 <= x < 0x100
}
