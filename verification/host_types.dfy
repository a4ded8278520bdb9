/**
 * The CMS and template-engine values the core reads, and the collaborators it calls.
 * None of these is implemented by the core: the values are passed-through data and the
 * collaborators are function-typed fields, so that every property proved about the core
 * holds whatever they do.
 */
module HostTypes {
  import opened Wrappers

  /** A stored binary file (the CMS's BinaryFile value): opaque data passed through to attachments. */
  datatype BinaryFileValue = BinaryFileValue(uri: string, fileName: string, mimeType: string)

  /** A submitted field value: a binary file, or the value of any other field type. */
  datatype FieldValue =
    | BinaryFile(file: BinaryFileValue)
    | OtherValue(fieldType: string, text: string)

  /** A PHP array from field identifier to submitted value, in submission order. */
  type FieldMap = seq<(string, FieldValue)>

  /**
   * The information-collected event: the identifier of the form's content type and the two
   * views of the submitted data the factory reads (`getCollectedFields()` and `getFieldsData()`).
   */
  datatype InformationCollected = InformationCollected(
    contentTypeIdentifier: string,
    collectedFields: FieldMap,
    fieldsData: FieldMap)

  /** The content item that owns the form; `fieldIdentifiers` are the keys of `$content->fields`. */
  datatype Content = Content(id: nat, fieldIdentifiers: set<string>)

  /** A translated content field; `property(name)` reads `$field->value->{name}`. */
  datatype Field = Field(fieldDefIdentifier: string, property: string -> string)

  /** The variables a block is rendered with. */
  datatype RenderVariables =
      /** For the recipient, sender and subject blocks. */
    | FieldVariables(event: InformationCollected, collectedFields: FieldMap, content: Content)
      /** For the body block, which also sees the configured default variables (null when there are none). */
    | BodyVariables(
        event: InformationCollected,
        collectedFields: FieldMap,
        content: Content,
        defaultVariables: Option<map<string, string>>)

  /**
   * A loaded Twig template: its source name, the names of its blocks, and the renderer
   * behind `renderBlock`, which the core calls only for a block the template has.
   */
  datatype TemplateWrapper = TemplateWrapper(
    sourceName: string,
    blockNames: seq<string>,
    render: (string, RenderVariables) -> string)
  {
    predicate HasBlock(name: string) {
      name in blockNames
    }
  }

  /**
   * The helpers the factory delegates to: the CMS field helper's `isFieldEmpty`, the
   * translation helper's `getTranslatedField` (None when it returns something other than a
   * Field), and PHP's `FILTER_VALIDATE_EMAIL` check.
   */
  datatype Helpers = Helpers(
    isFieldEmpty: (Content, string) -> bool,
    getTranslatedField: (Content, string) -> Option<Field>,
    validateEmail: string -> bool)
}
