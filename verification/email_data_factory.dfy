/**
 * The email content resolution engine: turns an information-collected event into an
 * EmailContent, resolving each part of the message from a template block, a field of the
 * content item, or a configured default, in that order.
 */
module EmailDataFactory {
  import opened Wrappers
  import opened HostTypes
  import opened DataTransfer
  import Php
  import Constants

  // ---------------------------------------------------------------------------
  // Configuration and errors

  /** `templates`: per-content-type template names and the default template name. */
  datatype TemplatesConfig = TemplatesConfig(contentTypes: map<string, string>, default: string)

  /** `attachments`: per-content-type send flags and the default flag. */
  datatype AttachmentsConfig = AttachmentsConfig(contentTypes: map<string, bool>, default: bool)

  /**
   * The email action's configuration. `attachments` is None when that section is missing or
   * an empty array.
   */
  datatype EmailActionConfig = EmailActionConfig(
    templates: TemplatesConfig,
    defaultVariables: map<string, string>,
    attachments: Option<AttachmentsConfig>)

  /** The exceptions the factory throws. */
  datatype FactoryError =
      /** MissingValueException: no tier produced a value for the field. */
    | MissingValue(field: string)
      /** MissingEmailBlockException: the template has no body block. */
    | MissingEmailBlock(templateName: string, blockNames: seq<string>)

  // ---------------------------------------------------------------------------
  // Template choice

  /** The template for a content type: its override when there is one, the default otherwise. */
  function ResolveTemplate(config: EmailActionConfig, contentTypeIdentifier: string): (template: string)
    ensures contentTypeIdentifier in config.templates.contentTypes ==>
              template == config.templates.contentTypes[contentTypeIdentifier]
    ensures contentTypeIdentifier !in config.templates.contentTypes ==> template == config.templates.default
  {
    if contentTypeIdentifier in config.templates.contentTypes then
      config.templates.contentTypes[contentTypeIdentifier]
    else
      config.templates.default
  }

  // ---------------------------------------------------------------------------
  // The three tiers shared by the scalar and address resolvers

  /**
   * Tier one: the block named after the field, rendered with the event, its collected fields
   * and the content, then trimmed; "" when the template has no such block.
   */
  function RenderedField(data: TemplateContent, field: string): (rendered: string)
    ensures !data.GetTemplateWrapper().HasBlock(field) ==> rendered == ""
    ensures data.GetTemplateWrapper().HasBlock(field) ==>
              rendered == Php.Trim(data.GetTemplateWrapper().render(
                field, FieldVariables(data.GetEvent(), data.GetEvent().collectedFields, data.GetContent())))
    ensures rendered != "" ==> !Php.IsTrimmable(rendered[0]) && !Php.IsTrimmable(rendered[|rendered| - 1])
  {
    var wrapper := data.GetTemplateWrapper();
    if wrapper.HasBlock(field) then
      var variables := FieldVariables(data.GetEvent(), data.GetEvent().collectedFields, data.GetContent());
      Php.Trim(wrapper.render(field, variables))
    else
      ""
  }

  /**
   * Tier two: the content's field of that identifier, when the content has the field, the
   * field is not empty, and translating it yields a Field.
   */
  function ContentField(helpers: Helpers, content: Content, field: string): (f: Option<Field>)
    ensures f.Some? ==> field in content.fieldIdentifiers && !helpers.isFieldEmpty(content, field)
    ensures field in content.fieldIdentifiers && !helpers.isFieldEmpty(content, field) ==>
              f == helpers.getTranslatedField(content, field)
  {
    if field in content.fieldIdentifiers && !helpers.isFieldEmpty(content, field) then
      helpers.getTranslatedField(content, field)
    else
      None
  }

  /** Tier three's candidate: `default_variables[field]`, or "" (PHP null) when it is not configured. */
  function DefaultVariable(config: EmailActionConfig, field: string): (value: string)
    ensures field !in config.defaultVariables ==> value == ""
    ensures field in config.defaultVariables ==> value == config.defaultVariables[field]
  {
    if field in config.defaultVariables then config.defaultVariables[field] else ""
  }

  // ---------------------------------------------------------------------------
  // Scalar fields

  /**
   * `resolve`: the trimmed block when it is not PHP-empty; else the content field's
   * `property`; else a non-empty configured default; else MissingValue(field).
   */
  function Resolve(
    config: EmailActionConfig,
    helpers: Helpers,
    data: TemplateContent,
    field: string,
    property: string := Constants.FIELD_TYPE_TEXT): (r: Result<string, FactoryError>)
    ensures r.Failure? ==> r.error == MissingValue(field)
  {
    var rendered := RenderedField(data, field);
    if !Php.IsEmpty(rendered) then
      Success(rendered)
    else
      match ContentField(helpers, data.GetContent(), field)
      case Some(f) => Success(f.property(property))
      case None =>
        if !Php.IsEmpty(DefaultVariable(config, field)) then Success(DefaultVariable(config, field))
        else Failure(MissingValue(field))
  }

  /** A non-empty block wins, and then neither the content's fields nor the configuration matters. */
  lemma ResolveBlockWins(
    config: EmailActionConfig, otherConfig: EmailActionConfig,
    helpers: Helpers, otherHelpers: Helpers,
    data: TemplateContent, field: string, property: string)
    requires !Php.IsEmpty(RenderedField(data, field))
    ensures Resolve(config, helpers, data, field, property) == Success(RenderedField(data, field))
    ensures Resolve(config, helpers, data, field, property) == Resolve(otherConfig, otherHelpers, data, field, property)
  {
  }

  /** Without a block value, a usable content field wins over the configured default. */
  lemma ResolveContentTier(config: EmailActionConfig, helpers: Helpers, data: TemplateContent, field: string, property: string)
    requires Php.IsEmpty(RenderedField(data, field))
    requires ContentField(helpers, data.GetContent(), field).Some?
    ensures Resolve(config, helpers, data, field, property)
            == Success(ContentField(helpers, data.GetContent(), field).value.property(property))
  {
  }

  /** Without a block value or a usable content field, a non-empty default is the result. */
  lemma ResolveDefaultTier(config: EmailActionConfig, helpers: Helpers, data: TemplateContent, field: string, property: string)
    requires Php.IsEmpty(RenderedField(data, field))
    requires ContentField(helpers, data.GetContent(), field).None?
    requires !Php.IsEmpty(DefaultVariable(config, field))
    ensures Resolve(config, helpers, data, field, property) == Success(config.defaultVariables[field])
  {
  }

  /** Resolution fails exactly when all three tiers come up empty. */
  lemma ResolveFailsIffAllTiersEmpty(config: EmailActionConfig, helpers: Helpers, data: TemplateContent, field: string, property: string)
    ensures Resolve(config, helpers, data, field, property).Failure? <==>
              Php.IsEmpty(RenderedField(data, field))
              && ContentField(helpers, data.GetContent(), field).None?
              && Php.IsEmpty(DefaultVariable(config, field))
  {
  }

  // ---------------------------------------------------------------------------
  // Address fields

  /**
   * The addresses tier one offers: the non-empty trimmed block split on ',' (tokens are not
   * trimmed) and filtered through the validator, in their original order.
   */
  function BlockAddresses(helpers: Helpers, data: TemplateContent, field: string): (addresses: seq<string>)
    ensures forall k :: 0 <= k < |addresses| ==> helpers.validateEmail(addresses[k]) && ',' !in addresses[k]
    ensures Php.IsEmpty(RenderedField(data, field)) ==> addresses == []
    ensures !Php.IsEmpty(RenderedField(data, field)) ==>
              addresses == Php.ArrayFilter(helpers.validateEmail, Php.Explode(',', RenderedField(data, field)))
  {
    var rendered := RenderedField(data, field);
    if Php.IsEmpty(rendered) then []
    else Php.ArrayFilter(helpers.validateEmail, Php.Explode(',', rendered))
  }

  /**
   * `resolveEmail`: the valid addresses of the block when there is at least one; else the
   * content field's `email` property; else the non-empty configured default; else
   * MissingValue(field). The result is never an empty list.
   */
  function ResolveEmail(config: EmailActionConfig, helpers: Helpers, data: TemplateContent, field: string)
    : (r: Result<seq<string>, FactoryError>)
    ensures r.Success? ==> r.value != []
    ensures r.Failure? ==> r.error == MissingValue(field)
  {
    var addresses := BlockAddresses(helpers, data, field);
    if addresses != [] then
      Success(addresses)
    else
      match ContentField(helpers, data.GetContent(), field)
      case Some(f) => Success([f.property(Constants.FIELD_TYPE_EMAIL)])
      case None =>
        if !Php.IsEmpty(DefaultVariable(config, field)) then Success([DefaultVariable(config, field)])
        else Failure(MissingValue(field))
  }

  /**
   * When some block token validates, the result is those tokens in order, each an exact
   * piece of the rendered block between commas, whatever the content and configuration.
   */
  lemma ResolveEmailBlockWins(
    config: EmailActionConfig, otherConfig: EmailActionConfig,
    helpers: Helpers, data: TemplateContent, field: string)
    requires BlockAddresses(helpers, data, field) != []
    ensures var tokens := Php.Explode(',', RenderedField(data, field));
            && Php.Implode(',', tokens) == RenderedField(data, field)
            && ResolveEmail(config, helpers, data, field) == Success(Php.ArrayFilter(helpers.validateEmail, tokens))
            && ResolveEmail(config, helpers, data, field) == ResolveEmail(otherConfig, helpers, data, field)
  {
    Php.ImplodeExplode(',', RenderedField(data, field));
  }

  /**
   * A block whose every token is rejected is treated exactly like a missing block: the
   * resolution falls through to the content field and the default instead of failing.
   */
  lemma ResolveEmailRejectedBlockFallsThrough(
    config: EmailActionConfig, helpers: Helpers, data: TemplateContent, field: string,
    blockless: TemplateWrapper)
    requires BlockAddresses(helpers, data, field) == []
    requires !blockless.HasBlock(field)
    ensures ResolveEmail(config, helpers, data, field)
            == ResolveEmail(config, helpers, data.(templateWrapper := blockless), field)
  {
  }

  /** Without block addresses, the content tier and the default tier each give exactly one address. */
  lemma ResolveEmailFallbackTiers(config: EmailActionConfig, helpers: Helpers, data: TemplateContent, field: string)
    requires BlockAddresses(helpers, data, field) == []
    ensures var f := ContentField(helpers, data.GetContent(), field);
            && (f.Some? ==> ResolveEmail(config, helpers, data, field) == Success([f.value.property("email")]))
            && (f.None? && !Php.IsEmpty(DefaultVariable(config, field)) ==>
                  ResolveEmail(config, helpers, data, field) == Success([config.defaultVariables[field]]))
            && (f.None? && Php.IsEmpty(DefaultVariable(config, field)) ==>
                  ResolveEmail(config, helpers, data, field) == Failure(MissingValue(field)))
  {
  }

  /**
   * Tokens keep their surrounding spaces: "a@x.com, b@x.com" is validated as "a@x.com" and
   * " b@x.com", so a validator that refuses the leading space keeps only the first address.
   */
  lemma BlockTokensKeepTheirSpaces()
    ensures Php.Explode(',', "a@x.com, b@x.com") == ["a@x.com", " b@x.com"]
  {
    var parts := ["a@x.com", " b@x.com"];
    assert Php.Implode(',', parts) == "a@x.com, b@x.com";
    Php.ExplodeImplode(',', parts);
  }

  // ---------------------------------------------------------------------------
  // Body

  /**
   * `resolveBody`: the untrimmed render of the `email` block, which also sees the default
   * variables (null when none are configured); with no such block, MissingEmailBlock naming
   * the template and its blocks. There is no content or configuration fallback.
   */
  function ResolveBody(config: EmailActionConfig, data: TemplateContent): (r: Result<string, FactoryError>)
    ensures var wrapper := data.GetTemplateWrapper();
            r.Failure? <==> !wrapper.HasBlock(Constants.BLOCK_EMAIL)
    ensures r.Failure? ==>
              r.error == MissingEmailBlock(data.GetTemplateWrapper().sourceName, data.GetTemplateWrapper().blockNames)
    ensures var wrapper := data.GetTemplateWrapper();
            var defaults := if config.defaultVariables != map[] then Some(config.defaultVariables) else None;
            wrapper.HasBlock(Constants.BLOCK_EMAIL) ==>
              r == Success(wrapper.render(
                Constants.BLOCK_EMAIL,
                BodyVariables(data.GetEvent(), data.GetEvent().fieldsData, data.GetContent(), defaults)))
  {
    var wrapper := data.GetTemplateWrapper();
    if wrapper.HasBlock(Constants.BLOCK_EMAIL) then
      var defaults := if config.defaultVariables != map[] then Some(config.defaultVariables) else None;
      var variables := BodyVariables(data.GetEvent(), data.GetEvent().fieldsData, data.GetContent(), defaults);
      Success(wrapper.render(Constants.BLOCK_EMAIL, variables))
    else
      Failure(MissingEmailBlock(wrapper.sourceName, wrapper.blockNames))
  }

  /** The body depends on the configuration only through the block's variables, never as a fallback. */
  lemma ResolveBodyHasNoFallback(config: EmailActionConfig, otherConfig: EmailActionConfig, data: TemplateContent)
    requires !data.GetTemplateWrapper().HasBlock(Constants.BLOCK_EMAIL)
    ensures ResolveBody(config, data) == ResolveBody(otherConfig, data)
  {
  }

  // ---------------------------------------------------------------------------
  // Attachments

  /** The binary-file values among the collected fields, in input order. */
  function BinaryFiles(fields: FieldMap): (files: seq<BinaryFileValue>)
    ensures |files| <= |fields|
    ensures forall x :: x in files ==> exists k :: 0 <= k < |fields| && fields[k].1 == BinaryFile(x)
    ensures forall k :: 0 <= k < |fields| && fields[k].1.BinaryFile? ==> fields[k].1.file in files
  {
    if fields == [] then
      []
    else
      var front := fields[..|fields| - 1];
      var last := fields[|fields| - 1].1;
      assert forall k :: 0 <= k < |front| ==> front[k] == fields[k];
      BinaryFiles(front) + (if last.BinaryFile? then [last.file] else [])
  }

  /** Selection commutes with concatenation: relative order is preserved. */
  lemma {:induction false} BinaryFilesConcat(a: FieldMap, b: FieldMap)
    ensures BinaryFiles(a + b) == BinaryFiles(a) + BinaryFiles(b)
  {
    if b != [] {
      var front := b[..|b| - 1];
      BinaryFilesConcat(a, front);
      assert (a + b)[..|a + b| - 1] == a + front;
      assert (a + b)[|a + b| - 1] == b[|b| - 1];
    } else {
      assert a + b == a;
    }
  }

  /** `getBinaryFileFields`: keeps each BinaryFile value of the collected fields, in order. */
  method GetBinaryFileFields(collectedFields: FieldMap) returns (filtered: seq<BinaryFileValue>)
    ensures filtered == BinaryFiles(collectedFields)
  {
    filtered := [];
    for i := 0 to |collectedFields|
      invariant filtered == BinaryFiles(collectedFields[..i])
    {
      assert collectedFields[..i + 1][..i] == collectedFields[..i];
      var value := collectedFields[i].1;
      if value.BinaryFile? {
        filtered := filtered + [value.file];
      }
    }
    assert collectedFields[..|collectedFields|] == collectedFields;
  }

  /** The send flag for a content type: its override when there is one, the default otherwise. */
  function SendFlag(attachments: AttachmentsConfig, contentTypeIdentifier: string): (send: bool)
    ensures contentTypeIdentifier in attachments.contentTypes ==> send == attachments.contentTypes[contentTypeIdentifier]
    ensures contentTypeIdentifier !in attachments.contentTypes ==> send == attachments.default
  {
    if contentTypeIdentifier in attachments.contentTypes then attachments.contentTypes[contentTypeIdentifier]
    else attachments.default
  }

  /**
   * `resolveAttachments`: nothing when attachments are not configured or the content type's
   * flag is off; otherwise every binary file among the collected fields, in order.
   */
  function ResolveAttachments(config: EmailActionConfig, contentTypeIdentifier: string, collectedFields: FieldMap)
    : (files: seq<BinaryFileValue>)
    ensures config.attachments.None? ==> files == []
    ensures config.attachments.Some? && !SendFlag(config.attachments.value, contentTypeIdentifier) ==> files == []
    ensures config.attachments.Some? && SendFlag(config.attachments.value, contentTypeIdentifier) ==>
              files == BinaryFiles(collectedFields)
    ensures |files| <= |collectedFields|
  {
    match config.attachments
    case None => []
    case Some(attachments) =>
      if !SendFlag(attachments, contentTypeIdentifier) then [] else BinaryFiles(collectedFields)
  }

  // ---------------------------------------------------------------------------
  // Assembly

  /**
   * `build`: picks and loads the template, then resolves the body, the recipients, the
   * sender and the subject in that order, failing with the first error, and finally selects
   * the attachments; cc and bcc keep their empty defaults.
   */
  function Build(
    config: EmailActionConfig,
    helpers: Helpers,
    load: string -> TemplateWrapper,
    event: InformationCollected,
    content: Content): (r: Result<EmailContent, FactoryError>)
    ensures r.Success? ==> r.value.recipients != [] && r.value.sender != []
    ensures r.Success? ==> r.value.cc == [] && r.value.bcc == []
    ensures r.Success? ==>
              r.value.attachments == ResolveAttachments(config, event.contentTypeIdentifier, event.fieldsData)
    ensures r.Failure? ==>
              || r.error.MissingEmailBlock?
              || r.error == MissingValue(Constants.FIELD_RECIPIENT)
              || r.error == MissingValue(Constants.FIELD_SENDER)
              || r.error == MissingValue(Constants.FIELD_SUBJECT)
  {
    var contentType := event.contentTypeIdentifier;
    var data := TemplateContent(event, content, load(ResolveTemplate(config, contentType)));
    var body :- ResolveBody(config, data);
    var recipients :- ResolveEmail(config, helpers, data, Constants.FIELD_RECIPIENT);
    var sender :- ResolveEmail(config, helpers, data, Constants.FIELD_SENDER);
    var subject :- Resolve(config, helpers, data, Constants.FIELD_SUBJECT);
    Success(NewEmailContent(recipients, sender, subject, body, ResolveAttachments(config, contentType, event.fieldsData)))
  }

  /** A missing body block is reported before any missing field, whatever the fields would give. */
  lemma BuildReportsMissingBodyFirst(
    config: EmailActionConfig, helpers: Helpers, load: string -> TemplateWrapper,
    event: InformationCollected, content: Content)
    requires !load(ResolveTemplate(config, event.contentTypeIdentifier)).HasBlock(Constants.BLOCK_EMAIL)
    ensures var wrapper := load(ResolveTemplate(config, event.contentTypeIdentifier));
            Build(config, helpers, load, event, content) == Failure(MissingEmailBlock(wrapper.sourceName, wrapper.blockNames))
  {
  }

  /**
   * With a body block, the first of recipient, sender and subject that cannot be resolved is
   * the one reported, and when all resolve the message carries exactly the resolved parts.
   */
  lemma BuildResolvesInOrder(
    config: EmailActionConfig, helpers: Helpers, load: string -> TemplateWrapper,
    event: InformationCollected, content: Content)
    requires load(ResolveTemplate(config, event.contentTypeIdentifier)).HasBlock(Constants.BLOCK_EMAIL)
    ensures var data := TemplateContent(event, content, load(ResolveTemplate(config, event.contentTypeIdentifier)));
            var recipients := ResolveEmail(config, helpers, data, Constants.FIELD_RECIPIENT);
            var sender := ResolveEmail(config, helpers, data, Constants.FIELD_SENDER);
            var subject := Resolve(config, helpers, data, Constants.FIELD_SUBJECT);
            var r := Build(config, helpers, load, event, content);
            && (recipients.Failure? ==> r == Failure(MissingValue(Constants.FIELD_RECIPIENT)))
            && (recipients.Success? && sender.Failure? ==> r == Failure(MissingValue(Constants.FIELD_SENDER)))
            && (recipients.Success? && sender.Success? && subject.Failure? ==>
                  r == Failure(MissingValue(Constants.FIELD_SUBJECT)))
            && (recipients.Success? && sender.Success? && subject.Success? ==>
                  r.Success?
                  && r.value.recipients == recipients.value
                  && r.value.sender == sender.value
                  && r.value.subject == subject.value
                  && r.value.body == ResolveBody(config, data).value)
  {
  }

  // ---------------------------------------------------------------------------
  // A worked example: a contact form whose template supplies the body and the recipient,
  // whose content item supplies the sender and whose configuration supplies the subject.

  const ExampleRecipient: string := "user@example.com"
  const ExampleSender: string := "site@example.com"
  const ExampleBody: string := "<p>Thank you</p>"

  function ExampleTemplate(): TemplateWrapper {
    TemplateWrapper(
      "contact.html.twig",
      [Constants.BLOCK_EMAIL, Constants.BLOCK_RECIPIENT],
      (name: string, variables: RenderVariables) => if name == Constants.BLOCK_RECIPIENT then ExampleRecipient else ExampleBody)
  }

  function ExampleConfig(): EmailActionConfig {
    EmailActionConfig(
      TemplatesConfig(map["contact_form" := "contact.html.twig"], "default.html.twig"),
      map[Constants.FIELD_SUBJECT := "New submission"],
      None)
  }

  function ExampleHelpers(): Helpers {
    Helpers(
      (content: Content, field: string) => false,
      (content: Content, field: string) =>
        if field == Constants.FIELD_SENDER then
          Some(Field(field, (property: string) => if property == Constants.FIELD_TYPE_EMAIL then ExampleSender else ""))
        else None,
      (address: string) => address == ExampleRecipient)
  }

  function ExampleData(fields: FieldMap): TemplateContent {
    TemplateContent(InformationCollected("contact_form", fields, fields), Content(1, {Constants.FIELD_SENDER}), ExampleTemplate())
  }

  /** The example's recipient block renders to an address with nothing to trim. */
  lemma ExampleRecipientRendered(fields: FieldMap)
    ensures RenderedField(ExampleData(fields), Constants.FIELD_RECIPIENT) == ExampleRecipient
  {
    var recipient := ExampleRecipient;
    assert ExampleTemplate().HasBlock(Constants.FIELD_RECIPIENT);
    assert !Php.IsTrimmable(recipient[0]) && !Php.IsTrimmable(recipient[|recipient| - 1]);
    Php.TrimLeavesTrimmedString(recipient);
  }

  /** The example's recipient block holds one address, and it validates. */
  lemma ExampleRecipientAddresses(fields: FieldMap)
    ensures BlockAddresses(ExampleHelpers(), ExampleData(fields), Constants.FIELD_RECIPIENT) == [ExampleRecipient]
  {
    var recipient := ExampleRecipient;
    ExampleRecipientRendered(fields);
    assert !Php.IsEmpty(recipient);
    assert ',' !in recipient;
    Php.ExplodeWithoutSeparator(',', recipient);
    Php.ArrayFilterKeepsAll(ExampleHelpers().validateEmail, [recipient]);
  }

  lemma ExampleRecipientFromBlock(fields: FieldMap)
    ensures ResolveEmail(ExampleConfig(), ExampleHelpers(), ExampleData(fields), Constants.FIELD_RECIPIENT)
            == Success([ExampleRecipient])
  {
    ExampleRecipientAddresses(fields);
  }

  lemma ExampleSenderFromContent(fields: FieldMap)
    ensures ResolveEmail(ExampleConfig(), ExampleHelpers(), ExampleData(fields), Constants.FIELD_SENDER)
            == Success([ExampleSender])
  {
    assert !ExampleTemplate().HasBlock(Constants.FIELD_SENDER);
  }

  lemma ExampleSubjectFromConfig(fields: FieldMap)
    ensures Resolve(ExampleConfig(), ExampleHelpers(), ExampleData(fields), Constants.FIELD_SUBJECT)
            == Success("New submission")
  {
    assert !ExampleTemplate().HasBlock(Constants.FIELD_SUBJECT);
  }

  /**
   * The contact form resolves to the recipient rendered by its block, the sender taken from
   * the content item, the configured subject and the rendered body, with no attachments.
   */
  lemma ContactFormExample(fields: FieldMap)
    ensures Build(ExampleConfig(), ExampleHelpers(), (name: string) => ExampleTemplate(),
                  InformationCollected("contact_form", fields, fields), Content(1, {Constants.FIELD_SENDER}))
            == Success(EmailContent([ExampleRecipient], [ExampleSender], "New submission", ExampleBody, [], [], []))
  {
    var data := ExampleData(fields);
    assert ResolveTemplate(ExampleConfig(), "contact_form") == "contact.html.twig";
    assert ExampleTemplate().HasBlock(Constants.BLOCK_EMAIL);
    assert ResolveBody(ExampleConfig(), data) == Success(ExampleBody);
    ExampleRecipientFromBlock(fields);
    ExampleSenderFromContent(fields);
    ExampleSubjectFromConfig(fields);
    assert ResolveAttachments(ExampleConfig(), "contact_form", fields) == [];
  }
}
