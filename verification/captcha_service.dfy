/**
 * The captcha service's configuration logic: a per-content-type override merged over the
 * global configuration, and the choice of which reCAPTCHA options to apply.
 */
module CaptchaService {
  import Php

  /** The service's configuration array. */
  type Config = map<string, Php.Value>

  const OVERRIDE_BY_TYPE: string := "override_by_type"
  const ENABLED: string := "enabled"
  const SITE_KEY: string := "site_key"
  const SECRET: string := "secret"
  const OPTIONS: string := "options"

  /** The options `getCaptcha` may apply, in the order it applies them. */
  const OPTION_NAMES: seq<string> := ["hostname", "apk_package_name", "action", "score_threshold", "challenge_timeout"]

  /** One setter call on the reCAPTCHA client: the option and the value passed to it. */
  datatype CaptchaOption = CaptchaOption(name: string, value: Php.Value)

  /** What `getCaptcha` returns: a null object, or a reCAPTCHA client with its secret and the options set on it. */
  datatype Captcha =
    | NullObject
    | ReCaptcha(secret: Php.Value, options: seq<CaptchaOption>)

  /** Whether `override_by_type` is a non-empty array with an entry for the content type. */
  function HasConfigForContentType(config: Config, contentTypeIdentifier: string): (has: bool)
    ensures Php.IsEmptyValue(Php.Lookup(config, OVERRIDE_BY_TYPE)) ==> !has
    ensures has <==> var overrides := Php.Lookup(config, OVERRIDE_BY_TYPE);
                     overrides.Arr? && contentTypeIdentifier in overrides.entries
  {
    var overrides := Php.Lookup(config, OVERRIDE_BY_TYPE);
    if !Php.IsEmptyValue(overrides) then
      overrides.Arr? && contentTypeIdentifier in overrides.entries
    else
      false
  }

  /** The content type's override array, or the empty array when there is none. */
  function ConfigForContentType(config: Config, contentTypeIdentifier: string): (overrides: map<string, Php.Value>)
    ensures !HasConfigForContentType(config, contentTypeIdentifier) ==> overrides == map[]
    ensures HasConfigForContentType(config, contentTypeIdentifier)
            && config[OVERRIDE_BY_TYPE].entries[contentTypeIdentifier].Arr? ==>
              overrides == config[OVERRIDE_BY_TYPE].entries[contentTypeIdentifier].entries
  {
    if HasConfigForContentType(config, contentTypeIdentifier) then
      match config[OVERRIDE_BY_TYPE].entries[contentTypeIdentifier]
      case Arr(entries) => entries
      case _ => map[]
    else
      map[]
  }

  /** `getConfig`: the override merged over the global configuration, key by top-level key. */
  function EffectiveConfig(config: Config, contentTypeIdentifier: string): (effective: Config)
    ensures !HasConfigForContentType(config, contentTypeIdentifier) ==> effective == config
    ensures var overrides := ConfigForContentType(config, contentTypeIdentifier);
            && effective.Keys == config.Keys + overrides.Keys
            && (forall k :: k in overrides ==> effective[k] == overrides[k])
            && (forall k :: k in config && k !in overrides ==> effective[k] == config[k])
  {
    Php.ArrayReplace(config, ConfigForContentType(config, contentTypeIdentifier))
  }

  /** `isEnabled`: the effective `enabled` entry (null when missing). */
  function IsEnabled(config: Config, contentTypeIdentifier: string): (enabled: Php.Value)
    ensures var overrides := ConfigForContentType(config, contentTypeIdentifier);
            && (ENABLED in overrides ==> enabled == overrides[ENABLED])
            && (ENABLED !in overrides ==> enabled == Php.Lookup(config, ENABLED))
  {
    Php.Lookup(EffectiveConfig(config, contentTypeIdentifier), ENABLED)
  }

  /** `getSiteKey`: the effective `site_key` entry (null when missing). */
  function GetSiteKey(config: Config, contentTypeIdentifier: string): (siteKey: Php.Value)
    ensures var overrides := ConfigForContentType(config, contentTypeIdentifier);
            && (SITE_KEY in overrides ==> siteKey == overrides[SITE_KEY])
            && (SITE_KEY !in overrides ==> siteKey == Php.Lookup(config, SITE_KEY))
  {
    Php.Lookup(EffectiveConfig(config, contentTypeIdentifier), SITE_KEY)
  }

  /** The names of the applied options, in order. */
  function OptionNames(applied: seq<CaptchaOption>): (names: seq<string>)
    ensures |names| == |applied|
    ensures forall k :: 0 <= k < |applied| ==> names[k] == applied[k].name
  {
    if applied == [] then [] else [applied[0].name] + OptionNames(applied[1..])
  }

  /** Whether `options[name]` is set to something non-empty. */
  predicate IsSetOption(options: Php.Value, name: string) {
    !Php.IsEmptyValue(Php.Offset(options, name))
  }

  /**
   * The setter calls for `names`: one per name whose option is non-empty, in order, each
   * passing the option's value.
   */
  function ApplyOptions(options: Php.Value, names: seq<string>): (applied: seq<CaptchaOption>)
    ensures OptionNames(applied) == Php.ArrayFilter((name: string) => IsSetOption(options, name), names)
    ensures forall k :: 0 <= k < |applied| ==> applied[k].value == Php.Offset(options, applied[k].name)
  {
    if names == [] then
      []
    else
      var rest := ApplyOptions(options, names[1..]);
      if IsSetOption(options, names[0]) then [CaptchaOption(names[0], Php.Offset(options, names[0]))] + rest
      else rest
  }

  /**
   * `getCaptcha`: a null object unless the effective `enabled` is truthy; otherwise a client
   * built with the effective secret, with each option set when its value is non-empty.
   */
  function GetCaptcha(config: Config, contentTypeIdentifier: string): (captcha: Captcha)
    ensures captcha.NullObject? <==> Php.IsEmptyValue(IsEnabled(config, contentTypeIdentifier))
    ensures var effective := EffectiveConfig(config, contentTypeIdentifier);
            captcha.ReCaptcha? ==>
              && captcha.secret == Php.Lookup(effective, SECRET)
              && (forall name :: name in OPTION_NAMES ==>
                   (name in OptionNames(captcha.options) <==> IsSetOption(Php.Lookup(effective, OPTIONS), name)))
              && OptionNames(captcha.options)
                 == Php.ArrayFilter((name: string) => IsSetOption(Php.Lookup(effective, OPTIONS), name), OPTION_NAMES)
              && (forall k :: 0 <= k < |captcha.options| ==>
                   captcha.options[k].value == Php.Offset(Php.Lookup(effective, OPTIONS), captcha.options[k].name))
  {
    var effective := EffectiveConfig(config, contentTypeIdentifier);
    if !Php.IsEmptyValue(Php.Lookup(effective, ENABLED)) then
      var options := Php.Lookup(effective, OPTIONS);
      var applied :=
        if !Php.IsEmptyValue(options) then ApplyOptions(options, OPTION_NAMES)
        else (EmptyOptionsSetNothing(options, OPTION_NAMES); []);
      Php.ArrayFilterMembership((name: string) => IsSetOption(options, name), OPTION_NAMES);
      ReCaptcha(Php.Lookup(effective, SECRET), applied)
    else
      NullObject
  }

  /** An empty `options` entry sets no option, so skipping the setter calls changes nothing. */
  lemma {:induction false} EmptyOptionsSetNothing(options: Php.Value, names: seq<string>)
    requires Php.IsEmptyValue(options)
    ensures ApplyOptions(options, names) == []
  {
    if names != [] {
      assert !IsSetOption(options, names[0]);
      EmptyOptionsSetNothing(options, names[1..]);
    }
  }
}
