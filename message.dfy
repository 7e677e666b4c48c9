/** One validation failure, and the group that collects failures. */
module ValidationMessage {

  /** An immutable failure record: the rule kind that produced it, the
      rendered text, the field it concerns and a machine code. */
  datatype Message = Message(kind: string, text: string, field: string, code: int)

  /** The messages of one validation run, in the order they were appended.
      Two groups are equal exactly when they have the same messages at the
      same positions, which is sequence equality. */
  type Group = seq<Message>
}
