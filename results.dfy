/** Outcome of every step of the converter. Each `throw` of the converter is one
    error variant; the two long-note errors carry the lane number that the
    original message prints. */
module Results {

  datatype Error =
    | TruncatedStream                     // "Unexpected EOF": a read ran past the end of the input
    | NotMidi                             // the file does not start with "MThd"
    | UnsupportedHeader                   // the header chunk length is not 6
    | UnsupportedTimeDivision             // the division word is an SMPTE/MTC value
    | InvalidLaneLayout                   // the pitch range is wider than 9 or even
    | DuplicateLongNoteStart(lane: int)   // a long note starts on a lane that already holds one
    | UnmatchedLongNoteEnd(lane: int)     // a long note ends on a lane that holds none

  datatype Result<T> = Ok(value: T) | Fail(error: Error)
}
