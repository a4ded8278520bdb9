# Information-collection email resolution, modelled in Dafny

This project models the core of an information-collection plugin for a CMS. When a visitor
submits a form, the email factory turns the "information collected" event into an
`EmailContent` message. It picks a template for the form's content type. It resolves the
body from the template's `email` block. It resolves the recipients, the sender and the subject,
each through three ordered tiers: a template block, a field of the content item, and a
configured default. Last, it selects binary-file attachments according to a per-content-type
policy. Two smaller pieces sit beside it:

- the captcha service's configuration merge (a per-content-type override over the global
  configuration) and its choice of reCAPTCHA options;
- the anonymizer aggregate, which dispatches an attribute to the first registered visitor
  that accepts it.

Modules, one per source file or concern:

- `Php` (`php.dfy`): the PHP built-ins the logic depends on. It defines `empty()` on strings
  (true for `""` and `"0"`) and on dynamic values, and `trim()` with its default character
  list (space, tab, LF, CR, NUL, vertical tab). It also defines `explode()` on a one-character
  separator, which leaves tokens untrimmed, `array_filter()` and `array_replace()`. `Trim`
  has an independent characterization, and `Explode` is proved inverse to `Implode` in both
  directions.
- `Constants` (`constants.dfy`): field identifiers, field-type properties and block names.
- `HostTypes` (`host_types.dfy`): the CMS and Twig values the core reads. The collaborators
  it calls are function-typed fields: `renderBlock`, `isFieldEmpty`, `getTranslatedField`
  and the `FILTER_VALIDATE_EMAIL` check. Every property holds whatever these collaborators
  do. `hasBlock` is not a separate collaborator: the model assumes a template has a block
  exactly when the block's name is among its `getBlockNames()`.
- `DataTransfer` (`data_transfer.dfy`): the immutable `EmailContent` and `TemplateContent`
  value objects, as datatypes.
- `EmailDataFactory` (`email_data_factory.dfy`): template choice and the three-tier
  resolvers, as functions returning a `Result` whose failures are the factory's two
  exceptions. It also holds the attachment policy and `Build`. `getBinaryFileFields` keeps
  its loop as a method, proved equal to the function `BinaryFiles`.
- `CaptchaService` (`captcha_service.dfy`): the configuration lookups and `getCaptcha`'s
  option selection, as functions.
- `AnonymizerAggregate` (`anonymizer_aggregate.dfy`): the aggregate as a class with a `seq`
  field. `addVisitor` appends to it, and `visit` loops over it and returns early.

Behaviour of the code worth noting:

- As written, `build` cannot succeed. It constructs `TemplateContent` with two arguments
  (`lib/Core/Factory/EmailDataFactory.php:73`), but the constructor takes three: event,
  content and template wrapper, with the second typed as content
  (`lib/API/Value/DataTransfer/TemplateContent.php:36`). PHP therefore throws a TypeError or
  an ArgumentCountError on every call, before `resolveBody` runs. The model repairs the call:
  `Build` takes the content item as a parameter and stores all three.
- The content-field and default tiers of address resolution return a single address without
  validating it. Only block tokens are validated.
- Block tokens are not trimmed after splitting on `,`. For `"a@x.com, b@x.com"` the second
  candidate is `" b@x.com"`, with its leading space (`BlockTokensKeepTheirSpaces`).
- A configured default counts only when it is non-empty in PHP's sense, so `"0"` and `""`
  do not count.

## Model

| member | source | states |
|---|---|---|
| `Php.IsEmpty` | lib/Core/Factory/EmailDataFactory.php:110 | `empty()` on a string is true exactly for the empty string and for `"0"` |
| `Php.IsEmptyValue` | bundle/Form/Captcha/CaptchaService.php:65-79 | `empty()` on a value is true exactly for null, false, 0, 0.0, `""`, `"0"` and the empty array |
| `Php.Trim` | lib/Core/Factory/EmailDataFactory.php:107 | the result is no longer than the input, neither starts nor ends with a trimmable character, and is empty exactly when every character of the input is trimmable |
| `Php.TrimCharacterization` | lib/Core/Factory/EmailDataFactory.php:107 | for any split of the input into trimmable prefix, untrimmable-bounded middle and trimmable suffix, trim returns exactly the middle |
| `Php.TrimLeavesTrimmedString` | lib/Core/Factory/EmailDataFactory.php:107 | a string that neither starts nor ends with a trimmable character is unchanged by trim |
| `Php.TrimIdempotent` | lib/Core/Factory/EmailDataFactory.php:152 | trimming twice is the same as trimming once |
| `Php.Explode` | lib/Core/Factory/EmailDataFactory.php:156 | explode yields at least one piece and no piece contains the separator |
| `Php.ImplodeExplode` | lib/Core/Factory/EmailDataFactory.php:156 | gluing the exploded pieces back with the separator gives the original string, so the pieces are untrimmed |
| `Php.ExplodeImplode` | lib/Core/Factory/EmailDataFactory.php:156 | exploding separator-free pieces glued with the separator gives back those pieces |
| `Php.ExplodeWithoutSeparator` | lib/Core/Factory/EmailDataFactory.php:156 | a string without the separator explodes to a single piece, itself |
| `Php.ExplodeAfterSeparator` | lib/Core/Factory/EmailDataFactory.php:156 | a leading separator yields an empty first piece followed by the pieces of the rest |
| `Php.ExplodePrefix` | lib/Core/Factory/EmailDataFactory.php:156 | a separator-free word in front of a string joins the first piece of that string |
| `Php.ArrayFilter` | lib/Core/Factory/EmailDataFactory.php:158-160 | the result keeps exactly the accepted elements: every kept element is accepted and comes from the input, every accepted input element is kept |
| `Php.ArrayFilterMembership` | lib/Core/Factory/EmailDataFactory.php:158-160 | an input element is in the result exactly when the callback accepts it |
| `Php.ArrayFilterConcat` | lib/Core/Factory/EmailDataFactory.php:158-160 | filtering distributes over concatenation, so the kept elements stay in input order |
| `Php.ArrayFilterKeepsAll` | lib/Core/Factory/EmailDataFactory.php:158-160 | when every element is accepted, the filter returns the input unchanged |
| `Php.ArrayReplace` | bundle/Form/Captcha/CaptchaService.php:105 | the keys are the union; a replacement key takes the replacement's value whole; other keys keep the base value |
| `Php.Offset` | bundle/Form/Captcha/CaptchaService.php:65-80 | reading an option gives the array entry when present, null otherwise (as `empty()` sees it) |
| `Php.Lookup` | bundle/Form/Captcha/CaptchaService.php:42 | reading a missing configuration key gives null |
| `Constants.FieldIdentifiersAreBlockNames` | lib/API/Constants.php:12-77 | the recipient, sender, subject, cc and bcc field identifiers equal their block names |
| `Constants.BodyBlockIsSeparate` | lib/API/Constants.php:52-77 | the body block `email` differs from the recipient, sender and subject names |
| `Constants.PropertyNames` | lib/API/Constants.php:32-47 | the text property is `text`, the email property is `email`, and the auto-responder subject differs from the subject |
| `DataTransfer.NewEmailContent` | lib/API/Value/DataTransfer/EmailContent.php:31-97 | each getter returns exactly the constructor argument in its position (recipients, sender, subject, body, attachments, cc, bcc); nothing is validated |
| `DataTransfer.NewEmailContentDefaults` | lib/API/Value/DataTransfer/EmailContent.php:31 | omitted attachments, cc and bcc are empty, and the three `has` predicates are false |
| `DataTransfer.EmailContent.HasAttachments` | lib/API/Value/DataTransfer/EmailContent.php:62-65 | true exactly when there is at least one attachment |
| `DataTransfer.EmailContent.HasCc` | lib/API/Value/DataTransfer/EmailContent.php:86-89 | true exactly when cc is non-empty |
| `DataTransfer.EmailContent.HasBcc` | lib/API/Value/DataTransfer/EmailContent.php:102-105 | true exactly when bcc is non-empty |
| `DataTransfer.TemplateContentGetters` | lib/API/Value/DataTransfer/TemplateContent.php:36-65 | the event, content and template wrapper getters return the constructor's arguments unchanged |
| `EmailDataFactory.ResolveTemplate` | lib/Core/Factory/EmailDataFactory.php:192-199 | the content type's template override when it has one, the default template otherwise |
| `EmailDataFactory.RenderedField` | lib/Core/Factory/EmailDataFactory.php:96-108 | with no block of the field's name the result is empty; otherwise it is the trimmed render of that block with the event, its collected fields and the content |
| `EmailDataFactory.ContentField` | lib/Core/Factory/EmailDataFactory.php:114-123 | when the content has the key and the field is not empty, the result is what `getTranslatedField` gives (None for a non-Field); otherwise None |
| `EmailDataFactory.DefaultVariable` | lib/Core/Factory/EmailDataFactory.php:125-127 | the configured `default_variables[field]`, or null (empty) when it is not configured |
| `EmailDataFactory.Resolve` | lib/Core/Factory/EmailDataFactory.php:94-130 | the only failure is MissingValue naming the field |
| `EmailDataFactory.ResolveBlockWins` | lib/Core/Factory/EmailDataFactory.php:96-112 | a non-empty trimmed block is the result, and then configuration and content helpers make no difference |
| `EmailDataFactory.ResolveContentTier` | lib/Core/Factory/EmailDataFactory.php:114-123 | with no block value, a usable content field yields its requested property |
| `EmailDataFactory.ResolveDefaultTier` | lib/Core/Factory/EmailDataFactory.php:125-127 | with neither block nor content field, a non-empty default is the result |
| `EmailDataFactory.ResolveFailsIffAllTiersEmpty` | lib/Core/Factory/EmailDataFactory.php:110-129 | resolution fails if and only if the block, the content field and the default all yield nothing |
| `EmailDataFactory.BlockAddresses` | lib/Core/Factory/EmailDataFactory.php:155-160 | empty when the trimmed block is PHP-empty; otherwise exactly the validated pieces of the untrimmed comma split, in order; each passed the validator and contains no comma |
| `EmailDataFactory.ResolveEmail` | lib/Core/Factory/EmailDataFactory.php:139-183 | a successful result is never an empty list; the only failure is MissingValue naming the field |
| `EmailDataFactory.ResolveEmailBlockWins` | lib/Core/Factory/EmailDataFactory.php:155-165 | when a block token validates, the result is the validated tokens of the untrimmed split, in order, whatever the configuration |
| `EmailDataFactory.ResolveEmailRejectedBlockFallsThrough` | lib/Core/Factory/EmailDataFactory.php:155-182 | a block whose every token is rejected gives the same result as a template without that block |
| `EmailDataFactory.ResolveEmailFallbackTiers` | lib/Core/Factory/EmailDataFactory.php:167-182 | without block addresses: exactly the content field's `email` property, else exactly the non-empty default, else MissingValue |
| `EmailDataFactory.BlockTokensKeepTheirSpaces` | lib/Core/Factory/EmailDataFactory.php:156 | splitting "a@x.com, b@x.com" yields "a@x.com" and " b@x.com" |
| `EmailDataFactory.ResolveBody` | lib/Core/Factory/EmailDataFactory.php:208-227 | with an `email` block, the untrimmed render of that block with the event, its fields data, the content and the default variables (null when none are configured); without it, MissingEmailBlock naming the template and its blocks |
| `EmailDataFactory.ResolveBodyHasNoFallback` | lib/Core/Factory/EmailDataFactory.php:224-227 | without the block the failure is the same whatever the configuration holds |
| `EmailDataFactory.BinaryFiles` | lib/Core/Factory/EmailDataFactory.php:255-265 | no longer than the input; every file comes from a BinaryFile value of the input, and every such value's file is present |
| `EmailDataFactory.BinaryFilesConcat` | lib/Core/Factory/EmailDataFactory.php:258-262 | selection distributes over concatenation, so input order is kept |
| `EmailDataFactory.GetBinaryFileFields` | lib/Core/Factory/EmailDataFactory.php:255-265 | the loop collects exactly the binary files of the input, in order |
| `EmailDataFactory.SendFlag` | lib/Core/Factory/EmailDataFactory.php:239-243 | the content type's send flag when overridden, the default flag otherwise |
| `EmailDataFactory.ResolveAttachments` | lib/Core/Factory/EmailDataFactory.php:233-250 | empty when attachments are unconfigured or the flag is off; otherwise exactly the binary files in order; never longer than the input |
| `EmailDataFactory.Build` | lib/Core/Factory/EmailDataFactory.php:66-84 | a built message has non-empty recipients and sender, empty cc and bcc, and the selected attachments; a failure is MissingEmailBlock or MissingValue for recipient, sender or subject |
| `EmailDataFactory.BuildReportsMissingBodyFirst` | lib/Core/Factory/EmailDataFactory.php:75 | a template without a body block fails with MissingEmailBlock whatever the other fields would give |
| `EmailDataFactory.BuildResolvesInOrder` | lib/Core/Factory/EmailDataFactory.php:75-83 | the first of recipient, sender, subject to fail is the error reported; otherwise the message carries exactly the resolved parts |
| `EmailDataFactory.ExampleRecipientFromBlock` | lib/Core/Factory/EmailDataFactory.php:155-165 | in the contact-form example the recipient comes from the block |
| `EmailDataFactory.ExampleSenderFromContent` | lib/Core/Factory/EmailDataFactory.php:167-176 | in the contact-form example the sender comes from the content field's email |
| `EmailDataFactory.ExampleSubjectFromConfig` | lib/Core/Factory/EmailDataFactory.php:125-127 | in the contact-form example the subject comes from the configured default |
| `EmailDataFactory.ContactFormExample` | lib/Core/Factory/EmailDataFactory.php:66-84 | the example builds a message with the block's recipient, the content's sender, the default subject, the rendered body and no attachments |
| `CaptchaService.HasConfigForContentType` | bundle/Form/Captcha/CaptchaService.php:131-140 | false when `override_by_type` is missing or empty; otherwise true exactly when the identifier is one of its keys |
| `CaptchaService.ConfigForContentType` | bundle/Form/Captcha/CaptchaService.php:115-122 | the content type's `override_by_type` entry when there is one (and it is an array); the empty array otherwise |
| `CaptchaService.EffectiveConfig` | bundle/Form/Captcha/CaptchaService.php:99-106 | equals the global configuration without an override; with one, overridden top-level keys take the override's value whole and the rest keep the global value |
| `CaptchaService.IsEnabled` | bundle/Form/Captcha/CaptchaService.php:37-43 | the override's `enabled` when it sets one, otherwise the global `enabled` |
| `CaptchaService.GetSiteKey` | bundle/Form/Captcha/CaptchaService.php:48-53 | the override's `site_key` when it sets one, otherwise the global `site_key` |
| `CaptchaService.OptionNames` | bundle/Form/Captcha/CaptchaService.php:65-82 | lists the names of the applied options position by position |
| `CaptchaService.ApplyOptions` | bundle/Form/Captcha/CaptchaService.php:65-82 | the applied options are exactly the non-empty ones, in order, each with its configured value |
| `CaptchaService.EmptyOptionsSetNothing` | bundle/Form/Captcha/CaptchaService.php:65-82 | when `options` is empty no setter would fire, so skipping the whole block sets the same options (none) |
| `CaptchaService.GetCaptcha` | bundle/Form/Captcha/CaptchaService.php:58-88 | a null object exactly when the effective `enabled` is empty; otherwise a client with the effective secret on which exactly the non-empty options among the five are set, in the source's order, each with its configured value |
| `AnonymizerAggregate.FirstAccepting` | bundle/Core/Persistence/Anonymizer/Visitor/Field/Aggregate.php:36-40 | the position found is the first accepting visitor: all earlier ones refuse, and it accepts unless it is past the end |
| `AnonymizerAggregate.Dispatch` | bundle/Core/Persistence/Anonymizer/Visitor/Field/Aggregate.php:34-45 | fails with OutOfBounds exactly when no visitor accepts (including none registered); otherwise yields the first accepting visitor's result |
| `AnonymizerAggregate.FirstAcceptingIgnoresLaterVisitors` | bundle/Core/Persistence/Anonymizer/Visitor/Field/Aggregate.php:36-40 | appending visitors does not move an existing first match |
| `AnonymizerAggregate.DispatchIgnoresLaterVisitors` | bundle/Core/Persistence/Anonymizer/Visitor/Field/Aggregate.php:36-40 | visitors after the first accepting one are never consulted |
| `AnonymizerAggregate.Aggregate.constructor` | bundle/Core/Persistence/Anonymizer/Visitor/Field/Aggregate.php:17-22 | the visitor list equals the given visitors (none by default), in order |
| `AnonymizerAggregate.Aggregate.AddVisitor` | bundle/Core/Persistence/Anonymizer/Visitor/Field/Aggregate.php:24-27 | appends the visitor at the end and leaves the earlier ones unchanged |
| `AnonymizerAggregate.Aggregate.Accept` | bundle/Core/Persistence/Anonymizer/Visitor/Field/Aggregate.php:29-32 | the aggregate accepts every attribute |
| `AnonymizerAggregate.Aggregate.Visit` | bundle/Core/Persistence/Anonymizer/Visitor/Field/Aggregate.php:34-45 | returns the first-match dispatch over the registered visitors and modifies nothing |

## Left out

- Template loading, configuration lookup and content loading are out of scope. Twig's
  `load`, the `ConfigResolver` read of the email action's configuration, and the
  content-type service are I/O. `Build` takes the loader, the configuration and the content
  item as parameters, and the captcha functions take the content type's identifier. A loader
  or repository error, which would propagate unchanged, is not modelled.
- The grammar of `FILTER_VALIDATE_EMAIL`, `isFieldEmpty`, `getTranslatedField` and Twig
  rendering are not modelled. They are uninterpreted function parameters.
- `EmailDataFactory.Build`: the factory's own call passes two arguments to the three-argument
  `TemplateContent` constructor and so always throws. The model repairs the call by passing
  the content item explicitly, and does not model that failure.
- `EmailDataFactory.SendFlag`: the attachment configuration is modelled with a boolean
  `default` that is always present. PHP reads a missing `default` as null and treats any
  truthy value as "send".
- `EmailDataFactory.Resolve`: reading a property of a field value is an uninterpreted
  function. PHP's behaviour for an undefined property (a warning, then null) is not modelled.
- `array_filter` keeps its original keys in PHP. The model renumbers the kept tokens as a
  plain list.
- The factory never resolves cc or bcc, so they always keep their empty defaults.
- `CaptchaService.HasConfigForContentType`: a non-empty `override_by_type` that is not an
  array gives false here. PHP would raise a TypeError in `array_keys`.
- `CaptchaService.ConfigForContentType`: an override entry that is not an array gives the
  empty array here. PHP would raise a TypeError in `array_replace`.
- `CaptchaService.HasConfigForContentType`: `in_array` compares loosely, and PHP turns
  integer-like string keys into integers. Configuration keys are modelled as plain strings.
- The `dump()` call in `isEnabled`, the construction of the reCAPTCHA client and its
  verification are not modelled. `getCaptcha` is modelled as the secret plus the list of
  setter calls.
- `AnonymizerAggregate.Aggregate.Visit`: visitors are modelled as pure accept/visit
  functions. Side effects of a visitor's own `visit` are not modelled.
- With no visitors, PHP leaves the visitor list unset, and `visit` then iterates over null.
  The model uses the empty list, which behaves the same way and throws OutOfBounds.
- Mail sending, CSV export and the behaviour-free interfaces are not part of this model.
