/**
 * `smart_parse_json` of json_compare.py: the standard parser on the text; if
 * it rejects the text, the standard parser on the DSL rewrite of the text;
 * if that is rejected too, the lenient parser on the original text. The
 * parsers themselves are parameters.
 */
module SmartParse {

  import opened Wrappers
  import opened JsonTree
  import opened DslRewrite

  /**
   * What one call of a parser does: it returns a value, raises its decode
   * error, or raises some other exception. Each exception carries the text
   * its message shows.
   */
  datatype Parse = Parsed(value: Json) | Rejected(message: string) | Crashed(message: string)

  /** Which stage produced the value, or why none did. */
  datatype Status = Standard | Converted | Repaired | Unrepairable(error: string)

  /** The pair `smart_parse_json` returns: the value, if any, and the status. */
  datatype Reply = Reply(value: Option<Json>, status: Status)

  /**
   * The whole fallback chain. `loads` stands for the standard parser, used
   * at stages one and two, and `lenient` for the lenient one. A `Failure`
   * is an exception that leaves the function: only an exception of the
   * first stage other than a decode error does; from stages two and three
   * every exception is caught and turned into an `Unrepairable` reply.
   */
  function SmartParse(text: string, loads: string -> Parse, lenient: string -> Parse): (r: Result<Reply, string>)
    ensures loads(text).Parsed? ==> r == Success(Reply(Some(loads(text).value), Standard))
    ensures loads(text).Crashed? ==> r == Failure(loads(text).message)
    ensures loads(text).Rejected? ==> r.Success? && r.value.status != Standard
    ensures r.Success? ==> (r.value.value.None? <==> r.value.status.Unrepairable?)
  {
    match loads(text)
    case Parsed(v) => Success(Reply(Some(v), Standard))
    case Crashed(e) => Failure(e)
    case Rejected(_) =>
      match loads(ConvertDslToJson(text))
      case Parsed(v) => Success(Reply(Some(v), Converted))
      case Crashed(e) => Success(Reply(None, Unrepairable(e)))
      case Rejected(_) =>
        match lenient(text)
        case Parsed(v) => Success(Reply(Some(v), Repaired))
        case Rejected(e) => Success(Reply(None, Unrepairable(e)))
        case Crashed(e) => Success(Reply(None, Unrepairable(e)))
  }

  /**
   * A value produced at stage two or three is the one the first parser to
   * accept its input returned, and every earlier stage rejected its input.
   */
  lemma {:induction false} ValueFromFirstAcceptingStage(text: string, loads: string -> Parse, lenient: string -> Parse)
    ensures var r := SmartParse(text, loads, lenient);
      (r.Success? && r.value.status == Converted) <==>
        (loads(text).Rejected? && loads(ConvertDslToJson(text)).Parsed? &&
         r == Success(Reply(Some(loads(ConvertDslToJson(text)).value), Converted)))
    ensures var r := SmartParse(text, loads, lenient);
      (r.Success? && r.value.status == Repaired) <==>
        (loads(text).Rejected? && loads(ConvertDslToJson(text)).Rejected? && lenient(text).Parsed? &&
         r == Success(Reply(Some(lenient(text).value), Repaired)))
  {
  }

  /**
   * No value comes back exactly when the standard parser rejects the text,
   * and then either raises something other than a decode error on the
   * rewrite, or rejects the rewrite while the lenient parser fails too.
   */
  lemma {:induction false} NoValueExactlyWhenAllFail(text: string, loads: string -> Parse, lenient: string -> Parse)
    ensures var r := SmartParse(text, loads, lenient);
      (r.Success? && r.value.value.None?) <==>
        (loads(text).Rejected? &&
         (loads(ConvertDslToJson(text)).Crashed? ||
          (loads(ConvertDslToJson(text)).Rejected? && !lenient(text).Parsed?)))
  {
  }

  /** Text the standard parser accepts never reaches the later stages. */
  lemma {:induction false} StandardShortCircuits(text: string, loads: string -> Parse, lenient1: string -> Parse, lenient2: string -> Parse)
    requires loads(text).Parsed?
    ensures SmartParse(text, loads, lenient1) == SmartParse(text, loads, lenient2)
  {
  }

  /** Nor is the lenient parser consulted when the rewrite parses. */
  lemma {:induction false} ConvertedShortCircuits(text: string, loads: string -> Parse, lenient1: string -> Parse, lenient2: string -> Parse)
    requires loads(text).Rejected? && loads(ConvertDslToJson(text)).Parsed?
    ensures SmartParse(text, loads, lenient1) == SmartParse(text, loads, lenient2)
  {
  }

  /**
   * The lenient parser sees the original text, never the rewrite: two lenient
   * parsers that agree on the text give the same reply.
   */
  lemma {:induction false} LenientSeesOriginalText(text: string, loads: string -> Parse, lenient1: string -> Parse, lenient2: string -> Parse)
    requires lenient1(text) == lenient2(text)
    ensures SmartParse(text, loads, lenient1) == SmartParse(text, loads, lenient2)
  {
  }

  /**
   * The standard parser is asked about two texts only, the input and its
   * rewrite: two standard parsers that agree on those give the same reply.
   */
  lemma {:induction false} StandardSeesTextAndRewrite(text: string, loads1: string -> Parse, loads2: string -> Parse, lenient: string -> Parse)
    requires loads1(text) == loads2(text)
    requires loads1(ConvertDslToJson(text)) == loads2(ConvertDslToJson(text))
    ensures SmartParse(text, loads1, lenient) == SmartParse(text, loads2, lenient)
  {
  }

  const FailurePrefix: string := "❌ 无法修复 JSON："

  /** The status line returned beside the value. */
  function Message(status: Status): string
  {
    match status
    case Standard => "✅ 使用标准 JSON 成功解析"
    case Converted => "⚠️ 检测到非标准格式，已自动转换为 JSON"
    case Repaired => "⚠️ 标准解析失败，但已用 demjson3 成功修复"
    case Unrepairable(e) => FailurePrefix + e
  }

  /**
   * Different statuses show different messages, so the message tells which
   * stage answered, and a failure message ends with the error text.
   */
  lemma {:induction false} MessagesDistinguishStatuses(a: Status, b: Status)
    ensures Message(a) == Message(b) <==> a == b
    ensures a.Unrepairable? ==> Message(a)[|FailurePrefix|..] == a.error
  {
    if a.Unrepairable? {
      assert Message(a)[|FailurePrefix|..] == a.error;
    }
    if a.Unrepairable? && b.Unrepairable? {
      assert Message(b)[|FailurePrefix|..] == b.error;
    } else if a != b {
      assert Message(a)[0] != Message(b)[0] || Message(a)[3] != Message(b)[3];
    }
  }
}
