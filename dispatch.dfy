/**
 * `getEvent` of main.go: a raw syslog line is framed into its date, source and
 * message, the date is parsed, and the message is offered to the Nginx,
 * process, PHP and generic parsers in that order; the first event wins.
 */
module Dispatch {
  import opened Text
  import opened Events
  import Framing
  import NginxParser
  import ProcessParser
  import AppParser
  import PhpParser
  import GenericParser

  /** The layout the syslog date is parsed with (a year-less Go layout). */
  const SyslogTimeLayout := "Jan 2 15:04:05"

  /** The first two steps of the cascade: the Nginx parser, then the process parser. */
  function ServiceEvent(syslogTime: int, source: string, message: string, parseTime: TimeParser,
                        decode: AppParser.ContextDecoder): (r: Result<Option<LogEvent>>)
    ensures r.Ok? && r.value.Some? ==>
      (r.value.value.NginxAccess? || r.value.value.NginxError? || r.value.value.Process? || r.value.value.BigcommerceApp?)
      && r.value.value.syslogTime == syslogTime
  {
    var nginx := NginxParser.NewNginxLogEvent(syslogTime, source, message, parseTime);
    if nginx != Ok(None) then nginx
    else ProcessParser.NewProcessLogEvent(syslogTime, source, message, decode)
  }

  /** The parser cascade on a framed message: the first parser with an event or an error decides. */
  function Classify(syslogTime: int, source: string, message: string, parseTime: TimeParser,
                    decode: AppParser.ContextDecoder): (r: Result<Option<LogEvent>>)
    ensures r == Ok(None) <==>
      && ServiceEvent(syslogTime, source, message, parseTime, decode) == Ok(None)
      && PhpParser.PhpEvent(syslogTime, source, message) == Ok(None)
      && GenericParser.NewGenericLogEvent(syslogTime, source, message).None?
  {
    var service := ServiceEvent(syslogTime, source, message, parseTime, decode);
    if service != Ok(None) then service
    else
      var php := PhpParser.PhpEvent(syslogTime, source, message);
      if php != Ok(None) then php
      else Ok(GenericParser.NewGenericLogEvent(syslogTime, source, message))
  }

  /**
   * The event of a raw line: nothing for a line without the syslog frame, `Err`
   * (the process stops) for a framed date the time parser rejects.
   */
  function GetEvent(text: string, parseTime: TimeParser, decode: AppParser.ContextDecoder)
    : (r: Result<Option<LogEvent>>)
    ensures Framing.Frame(text).None? ==> r == Ok(None)
    ensures r.Err? ==> Framing.Frame(text).Some?
    ensures Framing.Frame(text).Some? && parseTime(SyslogTimeLayout, Framing.Frame(text).value.0).None? ==> r.Err?
  {
    match Framing.Frame(text)
    case None => Ok(None)
    case Some((date, source, message)) =>
      match parseTime(SyslogTimeLayout, date)
      case None => Err("Failed to parse " + date)
      case Some(syslogTime) => Classify(syslogTime, source, message, parseTime, decode)
  }

  /** Every event the cascade yields carries the time of its syslog line. */
  lemma ClassifiedAtLineTime(syslogTime: int, source: string, message: string, parseTime: TimeParser,
                             decode: AppParser.ContextDecoder)
    requires var r := Classify(syslogTime, source, message, parseTime, decode); r.Ok? && r.value.Some?
    ensures Classify(syslogTime, source, message, parseTime, decode).value.value.GetSyslogTime() == syslogTime
  {
  }

  /** A stack-frame event can only come from the PHP parser, after the Nginx and process parsers found nothing. */
  lemma StackFrameFromPhp(syslogTime: int, source: string, message: string, parseTime: TimeParser,
                          decode: AppParser.ContextDecoder)
    requires var r := Classify(syslogTime, source, message, parseTime, decode);
      r.Ok? && r.value.Some? && r.value.value.PhpStackTrace?
    ensures NginxParser.NewNginxLogEvent(syslogTime, source, message, parseTime) == Ok(None)
    ensures ProcessParser.NewProcessLogEvent(syslogTime, source, message, decode) == Ok(None)
    ensures PhpParser.PhpEvent(syslogTime, source, message) == Classify(syslogTime, source, message, parseTime, decode)
  {
  }

  /** An event of a line is stamped with the time its framed date parses to. */
  lemma EventAtLineTime(text: string, parseTime: TimeParser, decode: AppParser.ContextDecoder)
    requires var r := GetEvent(text, parseTime, decode); r.Ok? && r.value.Some?
    ensures Framing.Frame(text).Some?
    ensures parseTime(SyslogTimeLayout, Framing.Frame(text).value.0) ==
      Some(GetEvent(text, parseTime, decode).value.value.GetSyslogTime())
  {
    var (date, source, message) := Framing.Frame(text).value;
    ClassifiedAtLineTime(parseTime(SyslogTimeLayout, date).value, source, message, parseTime, decode);
  }

  /** September is missing from the framing pattern's months, so a September line yields nothing. */
  lemma SeptemberIgnored(text: string, parseTime: TimeParser, decode: AppParser.ContextDecoder)
    requires StartsWith(text, "Sep")
    ensures GetEvent(text, parseTime, decode) == Ok(None)
  {
    Framing.FrameMatch(text);
    Framing.SeptemberUnframed(text);
  }
}
