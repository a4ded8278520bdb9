/** The two immutable value objects the email factory works with. */
module DataTransfer {
  import opened HostTypes

  /**
   * The outbound message the factory produces. Being a datatype, it cannot change after
   * construction; the constructor performs no validation.
   */
  datatype EmailContent = EmailContent(
    recipients: seq<string>,
    sender: seq<string>,
    subject: string,
    body: string,
    attachments: seq<BinaryFileValue>,
    cc: seq<string>,
    bcc: seq<string>)
  {
    function GetRecipients(): seq<string> { recipients }
    function GetSender(): seq<string> { sender }
    function GetSubject(): string { subject }
    function GetBody(): string { body }
    function GetAttachments(): seq<BinaryFileValue> { attachments }
    function GetCc(): seq<string> { cc }
    function GetBcc(): seq<string> { bcc }

    predicate HasAttachments()
      ensures HasAttachments() <==> attachments != []
    {
      |attachments| != 0
    }

    predicate HasCc()
      ensures HasCc() <==> cc != []
    {
      |cc| != 0
    }

    predicate HasBcc()
      ensures HasBcc() <==> bcc != []
    {
      |bcc| != 0
    }
  }

  /** `new EmailContent(...)`, whose last three arguments default to empty arrays. */
  function NewEmailContent(
    recipients: seq<string>,
    sender: seq<string>,
    subject: string,
    body: string,
    attachments: seq<BinaryFileValue> := [],
    cc: seq<string> := [],
    bcc: seq<string> := []): (e: EmailContent)
    ensures e.GetRecipients() == recipients && e.GetSender() == sender
    ensures e.GetSubject() == subject && e.GetBody() == body
    ensures e.GetAttachments() == attachments && e.GetCc() == cc && e.GetBcc() == bcc
  {
    EmailContent(recipients, sender, subject, body, attachments, cc, bcc)
  }

  /** Omitting the optional arguments gives a message without attachments, cc or bcc. */
  lemma NewEmailContentDefaults(recipients: seq<string>, sender: seq<string>, subject: string, body: string)
    ensures var e := NewEmailContent(recipients, sender, subject, body);
            e.GetAttachments() == [] && e.GetCc() == [] && e.GetBcc() == []
            && !e.HasAttachments() && !e.HasCc() && !e.HasBcc()
  {
  }

  /**
   * The bundle a template is rendered from: the event, the content item and the loaded
   * template, stored unchanged.
   */
  datatype TemplateContent = TemplateContent(
    event: InformationCollected,
    content: Content,
    templateWrapper: TemplateWrapper)
  {
    function GetEvent(): InformationCollected { event }
    function GetContent(): Content { content }
    function GetTemplateWrapper(): TemplateWrapper { templateWrapper }
  }

  /** The getters give back exactly what the constructor was given. */
  lemma TemplateContentGetters(event: InformationCollected, content: Content, templateWrapper: TemplateWrapper)
    ensures var data := TemplateContent(event, content, templateWrapper);
            data.GetEvent() == event && data.GetContent() == content && data.GetTemplateWrapper() == templateWrapper
  {
  }
}
