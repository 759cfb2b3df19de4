/**
 * The `channel_authorize` request model and its validation rule: exactly
 * one of the four signing methods may be given.
 */
module Requests {
  import opened Wrappers

  /**
   * The request method a request object names: channel_authorize, or one of
   * the other methods of the enumeration, by name.
   */
  datatype RequestMethod = ChannelAuthorizeMethod | OtherMethod(name: string)

  /**
   * The fields a caller supplies.  `method` is not among them: it is fixed
   * (see `Method`).  `channelId` and `amount` are required strings.
   */
  datatype ChannelAuthorize = ChannelAuthorize(
    channelId: string,
    amount: string,
    secret: Option<string>,
    seed: Option<string>,
    seedHex: Option<string>,
    passphrase: Option<string>,
    keyType: Option<string>)
  {
    /** The `method` field, which a caller cannot set: never another method. */
    function Method(): (m: RequestMethod)
      ensures !m.OtherMethod?
    {
      ChannelAuthorizeMethod
    }
  }

  /** The key under which the rule reports, and its message (verbatim, unbalanced back-quote included). */
  const ErrorKey: string := "ChannelAuthorize"
  const ErrorMessage: string := "Must set exactly one of `secret`, `seed, `seed_hex`, or `passphrase`"

  /** The present values of a list of optional strings, in order (`[m for m in xs if m is not None]`). */
  function Present(xs: seq<Option<string>>): (r: seq<string>)
    ensures |r| <= |xs|
    ensures forall v :: v in r <==> Some(v) in xs
  {
    if xs == [] then []
    else
      var rest := Present(xs[1..]);
      assert xs == [xs[0]] + xs[1..];
      if xs[0].Some? then [xs[0].value] + rest else rest
  }

  /**
   * The `signing_methods` list: the signing methods the request gives, in the
   * order `_get_errors` lists them, one entry per field that is not None.
   */
  function SigningMethods(r: ChannelAuthorize): (s: seq<string>)
    ensures |s| == SetCount(r)
    ensures forall v :: v in s <==> Some(v) in [r.secret, r.seed, r.seedHex, r.passphrase]
  {
    var xs := [r.secret, r.seed, r.seedHex, r.passphrase];
    PresentStep(xs);
    PresentStep(xs[1..]);
    PresentStep(xs[2..]);
    PresentStep(xs[3..]);
    assert xs[1..][1..] == xs[2..] && xs[2..][1..] == xs[3..] && xs[3..][1..] == [];
    Present(xs)
  }

  function Flag(o: Option<string>): nat {
    if o.Some? then 1 else 0
  }

  /** Reference count of the signing-method fields that are not None (key_type is not one). */
  function SetCount(r: ChannelAuthorize): nat {
    Flag(r.secret) + Flag(r.seed) + Flag(r.seedHex) + Flag(r.passphrase)
  }

  lemma PresentStep(xs: seq<Option<string>>)
    requires xs != []
    ensures |Present(xs)| == Flag(xs[0]) + |Present(xs[1..])|
  {
  }

  /**
   * `_get_errors`: the base errors, plus `ErrorKey` mapped to `ErrorMessage`
   * unless exactly one signing method is set.  Other base keys keep their
   * values; the only key that can be added or overwritten is `ErrorKey`.
   */
  function GetErrors(r: ChannelAuthorize, baseErrors: map<string, string>): (errors: map<string, string>)
    ensures SetCount(r) == 1 ==> errors == baseErrors
    ensures SetCount(r) != 1 ==> ErrorKey in errors && errors[ErrorKey] == ErrorMessage
    ensures errors.Keys == if SetCount(r) == 1 then baseErrors.Keys else baseErrors.Keys + {ErrorKey}
    ensures forall k :: k in baseErrors && k != ErrorKey ==> k in errors && errors[k] == baseErrors[k]
  {
    var errors := baseErrors;
    if |SigningMethods(r)| != 1 then errors[ErrorKey := ErrorMessage] else errors
  }

  /** With no signing method the rule reports. */
  lemma NoSigningMethodIsRejected(r: ChannelAuthorize, baseErrors: map<string, string>)
    requires r.secret.None? && r.seed.None? && r.seedHex.None? && r.passphrase.None?
    ensures GetErrors(r, baseErrors) == baseErrors[ErrorKey := ErrorMessage]
  {
  }

  /** With two distinct signing methods set the rule reports, whatever the other two are. */
  lemma TwoSigningMethodsAreRejected(r: ChannelAuthorize, baseErrors: map<string, string>)
    requires (r.secret.Some? && r.seed.Some?) || (r.secret.Some? && r.seedHex.Some?)
          || (r.secret.Some? && r.passphrase.Some?) || (r.seed.Some? && r.seedHex.Some?)
          || (r.seed.Some? && r.passphrase.Some?) || (r.seedHex.Some? && r.passphrase.Some?)
    ensures GetErrors(r, baseErrors) == baseErrors[ErrorKey := ErrorMessage]
  {
  }

  /** Presence counts, not content: an empty secret alone is an accepted signing method. */
  lemma EmptyStringCounts(r: ChannelAuthorize, baseErrors: map<string, string>)
    requires r.secret == Some("") && r.seed.None? && r.seedHex.None? && r.passphrase.None?
    ensures GetErrors(r, baseErrors) == baseErrors
  {
  }

  /** `channel_id`, `amount`, `key_type` and the values of the signing methods do not affect the rule. */
  lemma OnlyPresenceMatters(r: ChannelAuthorize, s: ChannelAuthorize, baseErrors: map<string, string>)
    requires r.secret.Some? == s.secret.Some? && r.seed.Some? == s.seed.Some?
    requires r.seedHex.Some? == s.seedHex.Some? && r.passphrase.Some? == s.passphrase.Some?
    ensures GetErrors(r, baseErrors) == GetErrors(s, baseErrors)
  {
  }
}
