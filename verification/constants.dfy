/** Field identifiers, field-type properties and template block names shared by the core. */
module Constants {

  const FIELD_RECIPIENT: string := "recipient"
  const FIELD_CC: string := "cc"
  const FIELD_BCC: string := "bcc"
  const FIELD_SENDER: string := "sender"
  const FIELD_SUBJECT: string := "subject"
  const FIELD_AUTO_RESPONDER_SUBJECT: string := "auto_responder_subject"

  /** The property read from an email field value. */
  const FIELD_TYPE_EMAIL: string := "email"
  /** The property read from a text field value by default. */
  const FIELD_TYPE_TEXT: string := "text"

  const BLOCK_EMAIL: string := "email"
  const BLOCK_RECIPIENT: string := "recipient"
  const BLOCK_CC: string := "cc"
  const BLOCK_BCC: string := "bcc"
  const BLOCK_SENDER: string := "sender"
  const BLOCK_SUBJECT: string := "subject"

  /**
   * Every address field and the subject are looked up as a template block of the same name,
   * which is why the resolvers pass the field identifier to `hasBlock`/`renderBlock`.
   */
  lemma FieldIdentifiersAreBlockNames()
    ensures FIELD_RECIPIENT == BLOCK_RECIPIENT
    ensures FIELD_SENDER == BLOCK_SENDER
    ensures FIELD_SUBJECT == BLOCK_SUBJECT
    ensures FIELD_CC == BLOCK_CC
    ensures FIELD_BCC == BLOCK_BCC
  {
  }

  /** The body block is none of the blocks the scalar and address resolvers read. */
  lemma BodyBlockIsSeparate()
    ensures BLOCK_EMAIL != FIELD_RECIPIENT
    ensures BLOCK_EMAIL != FIELD_SENDER
    ensures BLOCK_EMAIL != FIELD_SUBJECT
  {
  }

  /** The names of the two value properties, and the auto-responder subject is its own field. */
  lemma PropertyNames()
    ensures FIELD_TYPE_TEXT == "text" && FIELD_TYPE_EMAIL == "email"
    ensures FIELD_AUTO_RESPONDER_SUBJECT != FIELD_SUBJECT
  {
  }
}
