/** The message record that the transcript reader produces and every later
    stage consumes. */
module Messages {

  /** One chat message: `{date, time, sender, text}`. The text may span
      several lines when continuation lines were folded into it. */
  datatype Message = Message(sender: string, date: string, time: string, text: string)
}
