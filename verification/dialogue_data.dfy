/** `DialogueData`: an authored, read-only sequence of lines. */
module DialogueData {
  import opened Common

  /** One line: its text, the speaker's name, and optional portrait and voice
      clip handles. */
  datatype Line = Line(text: string, speaker: string, portrait: Option<Handle>, voice: Option<Handle>)

  datatype Dialogue = Dialogue(lines: seq<Line>)
}
