/**
 * The BigCommerce application log parser of events/bigcommerce-app.go:
 * `BigcommerceApp.<level>: <content> [<args>] [<store context>]`, tried with
 * three patterns from the strictest to the loosest.
 */
module AppParser {
  import opened Text
  import opened Regexp
  import opened Events

  /** `encoding/json` decoding of a store context; `None` when it fails. */
  type ContextDecoder = string -> Option<StoreContext>

  const AppPrefix := "BigcommerceApp."

  /** `\{.*?\}` */
  function Braced(): Re {
    Cat(Lit("{"), Cat(LazyStar(AnyChar), Lit("}")))
  }

  /**
   * `^BigcommerceApp\.(?P<logLevel>.*?): (?P<content>.*?) (?P<args>\[\]|\{.*?\}) (?P<storeContext>\{.*?\})$`
   */
  function WithContextPattern(): Re {
    Cat(Lit(AppPrefix), Cat(Group(1, LazyStar(AnyChar)), Cat(Lit(": "), Cat(Group(2, LazyStar(AnyChar)),
      Cat(Lit(" "), Cat(Group(3, Alt(Lit("[]"), Braced())), Cat(Lit(" "), Cat(Group(4, Braced()), EndOfText))))))))
  }

  /** `^BigcommerceApp\.(?P<logLevel>.*?): (?P<content>.*?) (?P<args>.+)$` */
  function WithArgsPattern(): Re {
    Cat(Lit(AppPrefix), Cat(Group(1, LazyStar(AnyChar)), Cat(Lit(": "), Cat(Group(2, LazyStar(AnyChar)),
      Cat(Lit(" "), Cat(Group(3, Plus(AnyChar)), EndOfText))))))
  }

  /** `^BigcommerceApp\.(?P<logLevel>.*?): (?P<content>.+)$` */
  function PlainPattern(): Re {
    Cat(Lit(AppPrefix), Cat(Group(1, LazyStar(AnyChar)), Cat(Lit(": "), Cat(Group(2, Plus(AnyChar)), EndOfText))))
  }

  /**
   * An application event with the given process ID, or `None`: no pattern
   * matches, or the store context of the strictest pattern does not decode
   * (the looser patterns are then not tried).
   */
  function NewBigcommerceAppLogEvent(syslogTime: int, source: string, processId: int, message: string,
                                     decode: ContextDecoder): (r: Option<LogEvent>)
    ensures r.Some? ==> r.value.BigcommerceApp? && r.value.syslogTime == syslogTime && r.value.processId == processId
  {
    var strict := Submatch(WithContextPattern(), message);
    if strict.Some? then
      var caps := strict.value;
      var json := ReplaceAll(Cap(caps, 4), "NULL", "0");
      var context := if json == "" then Some(NoStoreContext) else decode(json);
      if context.None? then None
      else Some(BigcommerceApp(syslogTime, processId, Cap(caps, 1), Cap(caps, 2), "", context.value, message))
    else
      var middle := Submatch(WithArgsPattern(), message);
      if middle.Some? then
        var caps := middle.value;
        Some(BigcommerceApp(syslogTime, processId, Cap(caps, 1), Cap(caps, 2), Cap(caps, 3), NoStoreContext, message))
      else
        var plain := Submatch(PlainPattern(), message);
        if plain.Some? then
          var caps := plain.value;
          Some(BigcommerceApp(syslogTime, processId, Cap(caps, 1), Cap(caps, 2), "", NoStoreContext, message))
        else None
  }

  /** Every application event comes from a message starting with "BigcommerceApp.". */
  lemma AppEventsNeedPrefix(syslogTime: int, source: string, processId: int, message: string, decode: ContextDecoder)
    requires NewBigcommerceAppLogEvent(syslogTime, source, processId, message, decode).Some?
    ensures StartsWith(message, AppPrefix)
  {
    if Submatch(WithContextPattern(), message).Some? {
      PrefixNeeded(AppPrefix, WithContextPattern().rest, message);
    } else if Submatch(WithArgsPattern(), message).Some? {
      PrefixNeeded(AppPrefix, WithArgsPattern().rest, message);
    } else {
      PrefixNeeded(AppPrefix, PlainPattern().rest, message);
    }
  }

  /**
   * A successful parse keeps the caller's process ID and the whole message, and
   * its category and log level are the captured level.
   */
  lemma AppEventCarriesCaller(syslogTime: int, source: string, processId: int, message: string, decode: ContextDecoder)
    requires NewBigcommerceAppLogEvent(syslogTime, source, processId, message, decode).Some?
    ensures var e := NewBigcommerceAppLogEvent(syslogTime, source, processId, message, decode).value;
      && e.BigcommerceApp?
      && e.processId == processId
      && e.originalMessage == message
      && e.syslogTime == syslogTime
      && e.Summary() == "bigcommerce-app-" + e.logLevel
  {
  }

  /**
   * Arguments are kept only from the middle pattern, where they are never
   * empty; the strictest pattern's argument capture is dropped.
   */
  lemma ArgsOnlyFromMiddlePattern(syslogTime: int, source: string, processId: int, message: string,
                                  decode: ContextDecoder)
    requires NewBigcommerceAppLogEvent(syslogTime, source, processId, message, decode).Some?
    ensures var e := NewBigcommerceAppLogEvent(syslogTime, source, processId, message, decode).value;
      e.args != "" <==>
        Submatch(WithContextPattern(), message).None? && Submatch(WithArgsPattern(), message).Some?
  {
    if Submatch(WithContextPattern(), message).None? && Submatch(WithArgsPattern(), message).Some? {
      SubmatchCaptures(WithArgsPattern(), message);
      assert Binding(WithArgsPattern(), 3);
      var caps := Submatch(WithArgsPattern(), message).value;
      assert Binds(WithArgsPattern(), 3, caps[3]);
    }
  }

  /**
   * Only the strictest pattern consults the decoder, and it hands it the
   * captured context with every "NULL" already replaced: the text decoded
   * holds no "NULL".
   */
  lemma DecoderSeesNoNull(message: string)
    requires Submatch(WithContextPattern(), message).Some?
    ensures forall j :: !OccursAt(ReplaceAll(Cap(Submatch(WithContextPattern(), message).value, 4), "NULL", "0"), "NULL", j)
  {
    ReplaceNullLeavesNone(Cap(Submatch(WithContextPattern(), message).value, 4));
  }

  /** When the strictest pattern fails, the decoder plays no part and the context stays zero. */
  lemma LooserPatternsIgnoreDecoder(syslogTime: int, source: string, processId: int, message: string,
                                    decode: ContextDecoder, other: ContextDecoder)
    requires Submatch(WithContextPattern(), message).None?
    ensures NewBigcommerceAppLogEvent(syslogTime, source, processId, message, decode)
         == NewBigcommerceAppLogEvent(syslogTime, source, processId, message, other)
    ensures NewBigcommerceAppLogEvent(syslogTime, source, processId, message, decode).Some? ==>
            NewBigcommerceAppLogEvent(syslogTime, source, processId, message, decode).value.storeContext == NoStoreContext
  {
  }

  /** The strictest pattern's context group spans at least a pair of braces. */
  lemma ContextBinds(v: string)
    requires Binds(WithContextPattern(), 4, v)
    ensures |v| >= 2
  {
    OwnerSpells(WithContextPattern(), 4, v);
  }

  /**
   * When the strictest pattern matches, a store context that does not decode
   * gives no event at all: the looser patterns are not tried.
   */
  lemma UndecodableContextGivesNothing(syslogTime: int, source: string, processId: int, message: string,
                                       decode: ContextDecoder)
    requires Submatch(WithContextPattern(), message).Some?
    requires decode(ReplaceAll(Cap(Submatch(WithContextPattern(), message).value, 4), "NULL", "0")).None?
    ensures NewBigcommerceAppLogEvent(syslogTime, source, processId, message, decode).None?
  {
    var caps := Submatch(WithContextPattern(), message).value;
    SubmatchCaptures(WithContextPattern(), message);
    assert Binding(WithContextPattern(), 4);
    ContextBinds(caps[4]);
  }
}
