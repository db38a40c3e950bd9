/** The values the server passes between its stages: timed words, transcript
    segments and plain time intervals. */
module Transcript {

  /** A time interval in seconds (`{"start": ..., "end": ...}`). */
  datatype Interval = Interval(start: real, end: real)

  /** A timed word; censorship only ever rewrites `word`. */
  datatype Word = Word(word: string, start: real, end: real)

  /** A transcript segment as the transcription engine returns it. */
  datatype Segment = Segment(start: real, end: real, text: string, words: seq<Word>)
}
