/**
 * The suppression configuration read from the user's config file.  Loading
 * and decoding the file is not part of this model: a `Settings` value is given.
 */
module Settings {

  datatype BigcommerceAppSection = BigcommerceAppSection(suppressLogLevels: seq<string>)
  datatype NginxAccessSection = NginxAccessSection(suppressStatusCodes: seq<int>)
  datatype ProcessSection = ProcessSection(suppressNames: seq<string>)
  datatype PhpSection = PhpSection(suppressStackTraces: bool, suppressContentRegexes: seq<string>)

  /**
   * One section per event family that can be suppressed.  There is no section
   * for generic events: the record offers nothing that could suppress them.
   */
  datatype Settings = Settings(
    bigcommerceApp: BigcommerceAppSection,
    nginxAccess: NginxAccessSection,
    process: ProcessSection,
    php: PhpSection)
  {
    function GetBigcommerceAppSuppressLogLevels(): seq<string> { bigcommerceApp.suppressLogLevels }
    function GetNginxSuppressStatusCodes(): seq<int> { nginxAccess.suppressStatusCodes }
    function GetPhpSuppressStackTraces(): bool { php.suppressStackTraces }
    function GetPhpSuppressContentRegexes(): seq<string> { php.suppressContentRegexes }
    function GetProcessSuppressNames(): seq<string> { process.suppressNames }
  }

  /**
   * The five getters expose the whole record: two settings values that agree
   * on every getter are the same value, so nothing else (no generic-event
   * list in particular) can influence suppression.
   */
  lemma GettersDetermineSettings(a: Settings, b: Settings)
    ensures a == b <==>
      && a.GetBigcommerceAppSuppressLogLevels() == b.GetBigcommerceAppSuppressLogLevels()
      && a.GetNginxSuppressStatusCodes() == b.GetNginxSuppressStatusCodes()
      && a.GetPhpSuppressStackTraces() == b.GetPhpSuppressStackTraces()
      && a.GetPhpSuppressContentRegexes() == b.GetPhpSuppressContentRegexes()
      && a.GetProcessSuppressNames() == b.GetProcessSuppressNames()
  {
  }
}
