/**
  The body rules for a chat message (MiddleWares/messageMiddleware.js): a
  Joi object schema with three fields. The schema is written down here as
  data, the way the source declares it, and `Satisfies` gives the meaning of
  the Joi calls it uses; `ValidBodyIff` states what the declaration amounts to.
 */
module MessageSchema {
  import opened Wrappers
  import opened JsValues

  /** The rule a Joi chain starts from: `joi.string()` or `joi.any()`. */
  datatype BaseType = StringType | AnyType

  /**
    One field's rule: its base type, whether `.required()` was called, the
    bound given to `.min(n)` and the list given to `.valid(...)`.
   */
  datatype Rule = Rule(base: BaseType, required: bool, minLength: Option<nat>, allowed: Option<seq<JsValue>>)

  datatype Field = Field(key: string, rule: Rule)

  /** `joi.string().required().min(1)` */
  const NonEmptyStringRule := Rule(StringType, true, Some(1), None)

  /** `joi.any().required().valid("message", "private_message")` */
  const MessageTypeRule := Rule(AnyType, true, None, Some([Str("message"), Str("private_message")]))

  /** `bodySchema` */
  const BodySchema := [
    Field("to", NonEmptyStringRule),
    Field("text", NonEmptyStringRule),
    Field("type", MessageTypeRule)
  ]

  /**
    A value passes a rule: an absent value passes only an optional rule; a
    present one must have the base type, be at least `min` long when it is a
    string with a bound, and be one of the listed values when there is a list.
   */
  predicate Satisfies(rule: Rule, v: JsValue) {
    if v == Undefined then !rule.required
    else
      (rule.base == StringType ==> v.Str?) &&
      (v.Str? && rule.minLength.Some? ==> |v.s| >= rule.minLength.value) &&
      (rule.allowed.Some? ==> v in rule.allowed.value)
  }

  /** The value of `key` in a parsed body; an absent key reads as undefined. */
  function Lookup(body: map<string, JsValue>, key: string): (r: JsValue) {
    if key in body then body[key] else Undefined
  }

  /** Every field of the schema passes its rule. */
  predicate ObjectSatisfies(schema: seq<Field>, body: map<string, JsValue>) {
    forall i :: 0 <= i < |schema| ==> Satisfies(schema[i].rule, Lookup(body, schema[i].key))
  }

  /** A message body with fields `to`, `text` and `type` passes `bodySchema`. */
  predicate ValidBody(to: JsValue, text: JsValue, messageType: JsValue) {
    ObjectSatisfies(BodySchema, map["to" := to, "text" := text, "type" := messageType])
  }

  predicate NonEmptyString(v: JsValue) {
    v.Str? && |v.s| >= 1
  }

  /**
    A body passes exactly when `to` and `text` are non-empty strings and
    `type` is "message" or "private_message"; missing, null, non-string or
    empty fields and any other type are rejected.
   */
  lemma ValidBodyIff(to: JsValue, text: JsValue, messageType: JsValue)
    ensures ValidBody(to, text, messageType) <==>
      NonEmptyString(to) && NonEmptyString(text) &&
      (messageType == Str("message") || messageType == Str("private_message"))
  {
    var body := map["to" := to, "text" := text, "type" := messageType];
    assert Lookup(body, "to") == to;
    assert Lookup(body, "text") == text;
    assert Lookup(body, "type") == messageType;
    assert ObjectSatisfies(BodySchema, body) <==>
      Satisfies(NonEmptyStringRule, to) && Satisfies(NonEmptyStringRule, text) &&
      Satisfies(MessageTypeRule, messageType)
    by {
      assert BodySchema[0] == Field("to", NonEmptyStringRule);
      assert BodySchema[1] == Field("text", NonEmptyStringRule);
      assert BodySchema[2] == Field("type", MessageTypeRule);
    }
  }
}
