/** Loading, correcting and saving the application's configuration. */
module AppConfigStore {
  import opened Common

  datatype OutputValue =
    | Null
    | Boolean(bool_value: bool)
    | Number(number: JsonNumber)
    | String(text: string)
    | Array(elements: seq<OutputValue>)
    | Object(members: map<string, OutputValue>)

  datatype JsonNumber = Finite(value: real) | NotFinite

  // ---------------------------------------------------------------- the configuration

  datatype Ui = Ui(darkMode: bool, language: string, keyClickEnabled: bool, keyClickVolumePercent: int)
  datatype Network = Network(iperfHost: string, iperfPort: int)
  datatype Logging = Logging(level: string, maxSegment: int, maxDirectory: int)
  datatype AppConfig = AppConfig(ui: Ui, network: Network, baudRate: int, logging: Logging, stationId: string,
                                 schemaVersion: int)

  const K_SCHEMA_VERSION := 1
  const K_MIN_LOG_SEGMENT_SIZE := 64 * 1024
  const K_MAX_EXACT_JSON_INTEGER := 9007199254740991
  const K_UART_BAUD_RATES := {9600, 19200, 38400, 57600, 115200}
  const K_LOG_LEVELS := {"trace", "debug", "info", "warn", "error", "fatal", "off"}
  const K_LANGUAGES := {"en", "zh_CN"}

  const DEFAULT_UI := Ui(true, "en", true, 70)
  const DEFAULT_NETWORK := Network("192.168.10.187", 5201)
  const DEFAULT_BAUD_RATE := 9600
  const DEFAULT_LOGGING := Logging("debug", 5 * 1024 * 1024, 50 * 1024 * 1024)
  const DEFAULT_STATION := "AUTO_TEST"
  const DEFAULTS :=
    AppConfig(DEFAULT_UI, DEFAULT_NETWORK, DEFAULT_BAUD_RATE, DEFAULT_LOGGING, DEFAULT_STATION, K_SCHEMA_VERSION)

  predicate ValidUi(ui: Ui) { ui.language in K_LANGUAGES && 0 <= ui.keyClickVolumePercent <= 100 }

  predicate ValidNetwork(network: Network) { network.iperfHost != "" && 1 <= network.iperfPort <= 65535 }

  predicate ValidLogging(logging: Logging) {
    && logging.level in K_LOG_LEVELS
    && K_MIN_LOG_SEGMENT_SIZE <= logging.maxSegment <= logging.maxDirectory <= K_MAX_EXACT_JSON_INTEGER
  }

  predicate ValidConfig(config: AppConfig) {
    && ValidUi(config.ui) && ValidNetwork(config.network) && config.baudRate in K_UART_BAUD_RATES
    && ValidLogging(config.logging) && config.stationId != "" && config.schemaVersion == K_SCHEMA_VERSION
  }

  // ---------------------------------------------------------------- reading one setting

  function Member(source: Option<OutputValue>, key: string): Option<OutputValue> {
    if source.Some? && source.value.Object? && key in source.value.members
    then Some(source.value.members[key]) else None
  }

  function BoolIn(source: Option<OutputValue>, key: string): Option<bool> {
    var value := Member(source, key);
    if value.Some? && value.value.Boolean? then Some(value.value.bool_value) else None
  }

  /** A nonempty string, and one of those allowed if only some are. */
  function StringIn(source: Option<OutputValue>, key: string, allowed: Option<set<string>>): Option<string> {
    var value := Member(source, key);
    if value.Some? && value.value.String? && value.value.text != ""
       && (allowed.None? || value.value.text in allowed.value)
    then Some(value.value.text) else None
  }

  /** A number without a fraction and within the bounds. */
  function IntegerValue(value: Option<OutputValue>, minimum: int, maximum: int): (result: Option<int>)
    ensures result.Some? ==> minimum <= result.value <= maximum
  {
    if value.Some? && value.value.Number? && value.value.number.Finite? then
      var x := value.value.number.value;
      if x.Floor as real != x || x < minimum as real || x > maximum as real then None else Some(x.Floor)
    else None
  }

  lemma IntegerValueExact(number: JsonNumber, minimum: int, maximum: int, n: int)
    ensures IntegerValue(Some(Number(number)), minimum, maximum) == Some(n)
            <==> number == Finite(n as real) && minimum <= n <= maximum
  {
  }

  function IntegerIn(source: Option<OutputValue>, key: string, minimum: int, maximum: int): (result: Option<int>)
    ensures result.Some? ==> minimum <= result.value <= maximum
  {
    IntegerValue(Member(source, key), minimum, maximum)
  }

  function Or<T>(found: Option<T>, fallback: T): T { if found.Some? then found.value else fallback }

  // ---------------------------------------------------------------- what a document means

  function UiOf(ui: Option<OutputValue>): Ui {
    Ui(Or(BoolIn(ui, "dark_mode"), DEFAULT_UI.darkMode),
       Or(StringIn(ui, "language", Some(K_LANGUAGES)), DEFAULT_UI.language),
       Or(BoolIn(ui, "key_click_enabled"), DEFAULT_UI.keyClickEnabled),
       Or(IntegerIn(ui, "key_click_volume_percent", 0, 100), DEFAULT_UI.keyClickVolumePercent))
  }

  predicate UiComplete(ui: Option<OutputValue>) {
    && BoolIn(ui, "dark_mode").Some? && StringIn(ui, "language", Some(K_LANGUAGES)).Some?
    && BoolIn(ui, "key_click_enabled").Some? && IntegerIn(ui, "key_click_volume_percent", 0, 100).Some?
  }

  function NetworkOf(network: Option<OutputValue>): Network {
    Network(Or(StringIn(network, "iperf_host", None), DEFAULT_NETWORK.iperfHost),
            Or(IntegerIn(network, "iperf_port", 1, 65535), DEFAULT_NETWORK.iperfPort))
  }

  predicate NetworkComplete(network: Option<OutputValue>) {
    StringIn(network, "iperf_host", None).Some? && IntegerIn(network, "iperf_port", 1, 65535).Some?
  }

  function BaudRateOf(uart: Option<OutputValue>): int {
    var rate := Or(IntegerIn(uart, "baud_rate", 1, 1000000), DEFAULT_BAUD_RATE);
    if rate in K_UART_BAUD_RATES then rate else DEFAULT_BAUD_RATE
  }

  predicate UartComplete(uart: Option<OutputValue>) {
    var rate := IntegerIn(uart, "baud_rate", 1, 1000000);
    rate.Some? && rate.value in K_UART_BAUD_RATES
  }

  function SizeIn(logging: Option<OutputValue>, key: string): (size: Option<int>)
    ensures size.Some? ==> K_MIN_LOG_SEGMENT_SIZE <= size.value <= K_MAX_EXACT_JSON_INTEGER
  {
    IntegerIn(logging, key, K_MIN_LOG_SEGMENT_SIZE, K_MAX_EXACT_JSON_INTEGER)
  }

  /** If the sizes contradict each other, neither is kept. */
  function LoggingOf(logging: Option<OutputValue>): Logging {
    var level := Or(StringIn(logging, "level", Some(K_LOG_LEVELS)), DEFAULT_LOGGING.level);
    var segment := Or(SizeIn(logging, "max_segment_size_bytes"), DEFAULT_LOGGING.maxSegment);
    var directory := Or(SizeIn(logging, "max_directory_size_bytes"), DEFAULT_LOGGING.maxDirectory);
    if directory < segment then DEFAULT_LOGGING.(level := level) else Logging(level, segment, directory)
  }

  predicate LoggingComplete(logging: Option<OutputValue>) {
    var segment, directory := SizeIn(logging, "max_segment_size_bytes"), SizeIn(logging, "max_directory_size_bytes");
    && StringIn(logging, "level", Some(K_LOG_LEVELS)).Some?
    && segment.Some? && directory.Some? && segment.value <= directory.value
  }

  function StationOf(factory: Option<OutputValue>): string { Or(StringIn(factory, "station_id", None), DEFAULT_STATION) }

  predicate StationComplete(factory: Option<OutputValue>) { StringIn(factory, "station_id", None).Some? }

  function ConfigOf(root: OutputValue): AppConfig {
    var r := Some(root);
    AppConfig(UiOf(Member(r, "ui")), NetworkOf(Member(r, "network")), BaudRateOf(Member(r, "uart")),
              LoggingOf(Member(r, "logging")), StationOf(Member(r, "factory")), K_SCHEMA_VERSION)
  }

  /** Nothing is missing and nothing is out of range. */
  predicate Complete(root: OutputValue) {
    var r := Some(root);
    && UiComplete(Member(r, "ui")) && NetworkComplete(Member(r, "network")) && UartComplete(Member(r, "uart"))
    && LoggingComplete(Member(r, "logging")) && StationComplete(Member(r, "factory"))
  }

  predicate Accepted(root: OutputValue) {
    root.Object? && IntegerIn(Some(root), "schema_version", K_SCHEMA_VERSION, K_SCHEMA_VERSION).Some?
  }

  /** Whatever the document holds, the configuration it gives is valid. */
  lemma ConfigIsValid(root: OutputValue)
    ensures ValidConfig(ConfigOf(root))
  {
    LoggingIsValid(Member(Some(root), "logging"));
    UiIsValid(Member(Some(root), "ui"));
  }

  lemma UiIsValid(ui: Option<OutputValue>)
    ensures ValidUi(UiOf(ui))
  {
  }

  lemma LoggingIsValid(logging: Option<OutputValue>)
    ensures ValidLogging(LoggingOf(logging))
  {
  }

  // ---------------------------------------------------------------- what is saved

  function Integer(n: int): OutputValue { Number(Finite(n as real)) }

  function UiOutput(ui: Ui): OutputValue {
    Object(map["dark_mode" := Boolean(ui.darkMode), "key_click_enabled" := Boolean(ui.keyClickEnabled),
               "key_click_volume_percent" := Integer(ui.keyClickVolumePercent), "language" := String(ui.language)])
  }

  function NetworkOutput(network: Network): OutputValue {
    Object(map["iperf_host" := String(network.iperfHost), "iperf_port" := Integer(network.iperfPort)])
  }

  function LoggingOutput(logging: Logging): OutputValue {
    Object(map["level" := String(logging.level), "max_directory_size_bytes" := Integer(logging.maxDirectory),
               "max_segment_size_bytes" := Integer(logging.maxSegment)])
  }

  function ConfigToOutput(config: AppConfig): OutputValue {
    Object(map["factory" := Object(map["station_id" := String(config.stationId)]),
               "logging" := LoggingOutput(config.logging),
               "network" := NetworkOutput(config.network),
               "schema_version" := Integer(config.schemaVersion),
               "uart" := Object(map["baud_rate" := Integer(config.baudRate)]),
               "ui" := UiOutput(config.ui)])
  }

  lemma UiRoundTrip(ui: Ui)
    requires ValidUi(ui)
    ensures UiOf(Some(UiOutput(ui))) == ui && UiComplete(Some(UiOutput(ui)))
  {
    var members := UiOutput(ui).members;
    assert members["dark_mode"] == Boolean(ui.darkMode);
    assert members["key_click_enabled"] == Boolean(ui.keyClickEnabled);
    assert members["key_click_volume_percent"] == Integer(ui.keyClickVolumePercent);
    assert members["language"] == String(ui.language);
  }

  lemma NetworkRoundTrip(network: Network)
    requires ValidNetwork(network)
    ensures NetworkOf(Some(NetworkOutput(network))) == network && NetworkComplete(Some(NetworkOutput(network)))
  {
    assert NetworkOutput(network).members["iperf_host"] == String(network.iperfHost);
  }

  lemma LoggingRoundTrip(logging: Logging)
    requires ValidLogging(logging)
    ensures LoggingOf(Some(LoggingOutput(logging))) == logging && LoggingComplete(Some(LoggingOutput(logging)))
  {
    var members := LoggingOutput(logging).members;
    assert members["level"] == String(logging.level);
    assert members["max_directory_size_bytes"] == Integer(logging.maxDirectory);
    assert members["max_segment_size_bytes"] == Integer(logging.maxSegment);
  }

  lemma SectionsOf(config: AppConfig)
    ensures var r := Some(ConfigToOutput(config));
            && Member(r, "ui") == Some(UiOutput(config.ui))
            && Member(r, "network") == Some(NetworkOutput(config.network))
            && Member(r, "uart") == Some(Object(map["baud_rate" := Integer(config.baudRate)]))
            && Member(r, "logging") == Some(LoggingOutput(config.logging))
            && Member(r, "factory") == Some(Object(map["station_id" := String(config.stationId)]))
            && Member(r, "schema_version") == Some(Integer(config.schemaVersion))
  {
  }

  /** What is saved for a valid configuration is accepted, complete, and means that configuration. */
  lemma RoundTrip(config: AppConfig)
    requires ValidConfig(config)
    ensures Accepted(ConfigToOutput(config)) && Complete(ConfigToOutput(config))
    ensures ConfigOf(ConfigToOutput(config)) == config
  {
    SectionsOf(config);
    UiRoundTrip(config.ui);
    NetworkRoundTrip(config.network);
    LoggingRoundTrip(config.logging);
  }

  /** A configuration survives being saved and loaded exactly if it is valid. */
  lemma SurvivesIffValid(config: AppConfig)
    ensures ValidConfig(config) <==> ConfigOf(ConfigToOutput(config)) == config
  {
    ConfigIsValid(ConfigToOutput(config));
    if ValidConfig(config) {
      RoundTrip(config);
    }
  }

  // ---------------------------------------------------------------- the store

  datatype Setting =
    | DarkMode | Language | KeyClickEnabled | KeyClickVolume | IperfHost | IperfPort | BaudRate | LogLevel
    | SegmentSize | DirectorySize | StationId

  datatype Diagnostic = UsesDefault(setting: Setting) | SizesContradict | UnsupportedSchema | NotUsable | FileError

  /** What the configuration file holds. Printing and parsing a value gives it back. */
  datatype Stored = Missing | NotJson | Json(value: OutputValue)

  class AppConfigStore {
    const pathKnown: bool
    var config: AppConfig
    var failed: bool
    var diagnostics: seq<Diagnostic>
    var corrected: bool
    var stored: Stored

    constructor (pathKnown: bool, stored: Stored)
      ensures this.pathKnown == pathKnown && this.stored == stored && config == DEFAULTS
    {
      this.pathKnown, this.stored := pathKnown, stored;
      config, failed, diagnostics, corrected := DEFAULTS, false, [], false;
    }

    /** What reading one setting must leave behind. */
    twostate predicate Noted(found: bool, setting: Setting)
      reads this
    {
      if found then diagnostics == old(diagnostics) && corrected == old(corrected)
      else diagnostics == old(diagnostics) + [UsesDefault(setting)] && corrected
    }

    method UseDefault(setting: Setting)
      modifies this`diagnostics, this`corrected
      ensures Noted(false, setting)
    {
      corrected := true;
      diagnostics := diagnostics + [UsesDefault(setting)];
    }

    method ReadBool(source: Option<OutputValue>, key: string, setting: Setting, fallback: bool) returns (value: bool)
      modifies this`diagnostics, this`corrected
      ensures value == Or(BoolIn(source, key), fallback) && Noted(BoolIn(source, key).Some?, setting)
    {
      var member := Member(source, key);
      if member.Some? && member.value.Boolean? {
        return member.value.bool_value;
      }
      UseDefault(setting);
      return fallback;
    }

    method ReadString(source: Option<OutputValue>, key: string, setting: Setting, fallback: string,
                      allowed: Option<set<string>>) returns (value: string)
      modifies this`diagnostics, this`corrected
      ensures value == Or(StringIn(source, key, allowed), fallback)
      ensures Noted(StringIn(source, key, allowed).Some?, setting)
    {
      var member := Member(source, key);
      if member.Some? && member.value.String? && member.value.text != "" {
        if allowed.None? || member.value.text in allowed.value {
          return member.value.text;
        }
      }
      UseDefault(setting);
      return fallback;
    }

    method ReadInt(source: Option<OutputValue>, key: string, setting: Setting, fallback: int, minimum: int, maximum: int)
      returns (value: int)
      modifies this`diagnostics, this`corrected
      ensures value == Or(IntegerIn(source, key, minimum, maximum), fallback)
      ensures Noted(IntegerIn(source, key, minimum, maximum).Some?, setting)
    {
      var number := IntegerValue(Member(source, key), minimum, maximum);
      if number.Some? {
        return number.value;
      }
      UseDefault(setting);
      return fallback;
    }

    /** A section is read without a diagnostic exactly if it was complete. */
    twostate predicate Section(complete: bool)
      reads this
    {
      && old(diagnostics) <= diagnostics && (old(corrected) ==> corrected)
      && (if complete then diagnostics == old(diagnostics) && corrected == old(corrected)
          else |diagnostics| > |old(diagnostics)| && corrected)
    }

    method ReadUi(source: Option<OutputValue>) returns (ui: Ui)
      modifies this`diagnostics, this`corrected
      ensures ui == UiOf(source) && Section(UiComplete(source))
    {
      var darkMode := ReadBool(source, "dark_mode", DarkMode, DEFAULT_UI.darkMode);
      var language := ReadString(source, "language", Language, DEFAULT_UI.language, Some(K_LANGUAGES));
      var enabled := ReadBool(source, "key_click_enabled", KeyClickEnabled, DEFAULT_UI.keyClickEnabled);
      var volume := ReadInt(source, "key_click_volume_percent", KeyClickVolume, DEFAULT_UI.keyClickVolumePercent, 0, 100);
      ui := Ui(darkMode, language, enabled, volume);
    }

    method ReadNetwork(source: Option<OutputValue>) returns (network: Network)
      modifies this`diagnostics, this`corrected
      ensures network == NetworkOf(source) && Section(NetworkComplete(source))
    {
      var host := ReadString(source, "iperf_host", IperfHost, DEFAULT_NETWORK.iperfHost, None);
      var port := ReadInt(source, "iperf_port", IperfPort, DEFAULT_NETWORK.iperfPort, 1, 65535);
      network := Network(host, port);
    }

    method ReadUart(source: Option<OutputValue>) returns (baudRate: int)
      modifies this`diagnostics, this`corrected
      ensures baudRate == BaudRateOf(source) && Section(UartComplete(source))
    {
      baudRate := ReadInt(source, "baud_rate", BaudRate, DEFAULT_BAUD_RATE, 1, 1000000);
      if baudRate !in K_UART_BAUD_RATES {
        baudRate := DEFAULT_BAUD_RATE;
        UseDefault(BaudRate);
      }
    }

    method ReadLogging(source: Option<OutputValue>) returns (logging: Logging)
      modifies this`diagnostics, this`corrected
      ensures logging == LoggingOf(source) && Section(LoggingComplete(source))
    {
      var level := ReadString(source, "level", LogLevel, DEFAULT_LOGGING.level, Some(K_LOG_LEVELS));
      var segment := ReadInt(source, "max_segment_size_bytes", SegmentSize, DEFAULT_LOGGING.maxSegment,
                             K_MIN_LOG_SEGMENT_SIZE, K_MAX_EXACT_JSON_INTEGER);
      var directory := ReadInt(source, "max_directory_size_bytes", DirectorySize, DEFAULT_LOGGING.maxDirectory,
                               K_MIN_LOG_SEGMENT_SIZE, K_MAX_EXACT_JSON_INTEGER);
      if directory < segment {
        directory, segment := DEFAULT_LOGGING.maxDirectory, DEFAULT_LOGGING.maxSegment;
        corrected := true;
        diagnostics := diagnostics + [SizesContradict];
      }
      logging := Logging(level, segment, directory);
    }

    /** All sections, in the order of the file's documentation. */
    method ReadSections(root: OutputValue)
      requires diagnostics == [] && !corrected
      modifies this`config, this`diagnostics, this`corrected
      ensures config == ConfigOf(root)
      ensures corrected <==> !Complete(root)
      ensures diagnostics == [] <==> Complete(root)
    {
      var r := Some(root);
      var ui := ReadUi(Member(r, "ui"));
      var network := ReadNetwork(Member(r, "network"));
      var baudRate := ReadUart(Member(r, "uart"));
      var logging := ReadLogging(Member(r, "logging"));
      var station := ReadString(Member(r, "factory"), "station_id", StationId, DEFAULT_STATION, None);
      config := AppConfig(ui, network, baudRate, logging, station, K_SCHEMA_VERSION);
    }

    /** Replaces the file in one step, or leaves it; a failure to sync may be reported after the step. */
    method Save() returns (ok: bool)
      modifies this`stored, this`failed
      ensures failed == !ok
      ensures ok ==> pathKnown && stored == Json(ConfigToOutput(config))
      ensures stored == old(stored) || (pathKnown && stored == Json(ConfigToOutput(config)))
    {
      failed := !pathKnown;
      if !pathKnown {
        return false;
      }
      var replaced: bool, synced: bool := *, *;
      if replaced {
        stored := Json(ConfigToOutput(config));
      }
      ok := replaced && synced;
      failed := !ok;
    }

    /** The file was there, could be read, and is one this version understands. */
    predicate Usable()
      reads this`stored
    {
      stored.Json? && Accepted(stored.value)
    }

    /**
     Loading always leaves a valid configuration: the document's if it can be used, else the defaults. The
     file is written only if it was missing or incomplete, and then with exactly what was loaded; a file
     that this version does not understand is never touched.
     */
    method Load() returns (ok: bool, ghost read: bool)
      modifies this
      ensures ValidConfig(config)
      ensures config == if read && old(Usable()) then ConfigOf(old(stored).value) else DEFAULTS
      ensures stored != old(stored) ==>
                && stored == Json(ConfigToOutput(config))
                && (old(stored).Missing? || (old(Usable()) && !Complete(old(stored).value)))
      ensures read && old(Usable()) && Complete(old(stored).value) ==> ok && diagnostics == [] && stored == old(stored)
      ensures read && ok && !failed && (old(stored).Missing? || old(Usable())) ==>
                stored.Json? && ConfigOf(stored.value) == config && Complete(stored.value)
    {
      config, failed, diagnostics, corrected, read := DEFAULTS, false, [], false, false;
      if !pathKnown {
        failed, diagnostics := true, [FileError];
        return false, read;
      }
      var inspected: bool, readable: bool := *, *;
      if !inspected {
        failed, diagnostics := true, [FileError];
        return false, read;
      }
      if stored.Missing? {
        read := true;
        ok := Save();
        RoundTrip(config);
        if !ok {
          diagnostics := diagnostics + [FileError];
        }
        return ok, read;
      }
      if !readable || !stored.Json? || !stored.value.Object? {
        failed, diagnostics := true, [NotUsable];
        return true, read;
      }
      read := true;
      if IntegerIn(Some(stored.value), "schema_version", K_SCHEMA_VERSION, K_SCHEMA_VERSION).None? {
        diagnostics := [UnsupportedSchema];
        return true, read;
      }
      ReadSections(stored.value);
      ConfigIsValid(stored.value);
      RoundTrip(config);
      ok := true;
      if corrected {
        ok := Save();
        if !ok {
          diagnostics := diagnostics + [FileError];
        }
      }
    }
  }
}
