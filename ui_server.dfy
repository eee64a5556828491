/**
 * The request-side logic of the dashboard server: its boolean setting, the
 * hop-by-hop header filter of the API proxy and its stream detection, the
 * query-parameter readers, the refresh clamp of the index page, and the
 * summary of the latest event that the page shows.
 */
module UiServer {
  import opened Wrappers
  import opened PyText
  import opened PyDict
  import opened JsonValue
  import Env

  // ---------------------------------------------------------------------------
  // Settings
  // ---------------------------------------------------------------------------

  /**
   * _env_bool of the server: the value, or the default text when the variable
   * is unset, trimmed and lower-cased, must be one of the "on" spellings.
   */
  function UiEnvBool(v: Option<string>, default: string): bool {
    Lower(Strip(v.GetOr(default))) in Env.TrueWords
  }

  /**
   * The server and the ingester read an unset or non-empty variable the same
   * way (the ingester's default being what the server's default text reads as).
   */
  lemma UiEnvBoolVersusIngest(v: Option<string>, default: string)
    requires v != Some("")
    ensures UiEnvBool(v, default) == Env.IngestEnvBool(v, UiEnvBool(None, default))
  {
    if v.Some? {
      assert UiEnvBool(v, default) == (Lower(Strip(v.value)) in Env.TrueWords);
    }
  }

  /**
   * They differ on a variable set to the empty text: the server reads it as
   * "off", the ingester falls back to its default.
   */
  lemma UiEnvBoolEmptyIsOff(default: string)
    ensures !UiEnvBool(Some(""), default)
    ensures Env.IngestEnvBool(Some(""), true)
  {
    StripBlank("");
    assert Lower("") == "";
    assert "" !in Env.TrueWords;
  }

  /** Each "on" spelling switches the setting on, whatever the default. */
  lemma UiEnvBoolWords(default: string)
    ensures forall w :: w in Env.TrueWords ==> UiEnvBool(Some(w), default)
  {
    forall w | w in Env.TrueWords
      ensures UiEnvBool(Some(w), default)
    {
      Env.OnWordPlain(w);
    }
  }

  /** Unset, the default text decides: the proxy setting, whose default is "1", is then on. */
  lemma UiEnvBoolDefaultOn()
    ensures UiEnvBool(None, "1")
  {
    Env.OnWordPlain("1");
  }

  // ---------------------------------------------------------------------------
  // API proxy headers
  // ---------------------------------------------------------------------------

  /** _hop_by_hop_headers: the connection-level headers a proxy must not forward. */
  const HopByHop: set<string> := {
    "connection", "keep-alive", "proxy-authenticate", "proxy-authorization",
    "te", "trailers", "transfer-encoding", "upgrade", "host"
  }

  /**
   * _filter_headers: the headers to forward, keyed by their original
   * spelling. A header is kept exactly when its lower-cased name is not
   * hop-by-hop, and a name given twice keeps its last value.
   */
  method FilterHeaders(headers: seq<(string, string)>) returns (out: map<string, string>)
    ensures forall k :: k in out <==> HasKey(headers, k) && Lower(k) !in HopByHop
    ensures forall k :: k in out ==> LastValue(headers, k) == Some(out[k])
  {
    out := map[];
    var i := 0;
    while i < |headers|
      invariant 0 <= i <= |headers|
      invariant forall k :: k in out <==> HasKey(headers[..i], k) && Lower(k) !in HopByHop
      invariant forall k :: k in out ==> LastValue(headers[..i], k) == Some(out[k])
    {
      var (k, v) := headers[i];
      assert headers[..i + 1] == headers[..i] + [(k, v)];
      forall other | other != k
        ensures LastValue(headers[..i + 1], other) == LastValue(headers[..i], other)
      {
        LastValueAppend(headers[..i], k, v, other);
      }
      assert LastValue(headers[..i + 1], k) == Some(v);
      var lk := Lower(k);
      if lk !in HopByHop {
        out := out[k := v];
      }
      i := i + 1;
    }
    assert headers[..i] == headers;
  }

  /** A header is forwarded or dropped by its name alone, whatever its case: "Host" and "HOST" are dropped like "host". */
  lemma HopByHopAnyCase(headers: seq<(string, string)>, k: string, out: map<string, string>)
    requires forall k' :: k' in out <==> HasKey(headers, k') && Lower(k') !in HopByHop
    requires Lower(k) in HopByHop
    ensures k !in out
  {
  }

  /**
   * The proxy streams the answer when the path is under "sse/" or the Accept
   * header (absent counts as empty) asks for an event stream, in any case.
   */
  function WantStream(path: string, accept: Option<string>): bool {
    StartsWith(path, "sse/") || Contains(Lower(accept.GetOr("")), "text/event-stream")
  }

  /** Stream detection ignores the case of the Accept header, and every "sse/" path streams. */
  lemma WantStreamCaseInsensitive(path: string, accept: string)
    ensures WantStream(path, Some(Lower(accept))) == WantStream(path, Some(accept))
    ensures StartsWith(path, "sse/") ==> WantStream(path, None)
  {
    LowerIdempotent(accept);
  }

  // ---------------------------------------------------------------------------
  // Query parameters
  // ---------------------------------------------------------------------------

  /** `str(qp.get(n, "")).strip()`: the trimmed last value given for a name (Starlette keeps the last of repeated parameters). */
  function QueryText(qp: seq<(string, string)>, n: string): string {
    Strip(LastValue(qp, n).GetOr(""))
  }

  /** A name that is present with a non-blank value. */
  predicate Usable(qp: seq<(string, string)>, n: string) {
    HasKey(qp, n) && QueryText(qp, n) != ""
  }

  /** names[j] is the first usable name. */
  predicate FirstUsable(qp: seq<(string, string)>, names: seq<string>, j: int) {
    0 <= j < |names| && Usable(qp, names[j])
    && forall i :: 0 <= i < j ==> !Usable(qp, names[i])
  }

  /** names[j] is the first name present at all. */
  predicate FirstPresent(qp: seq<(string, string)>, names: seq<string>, j: int) {
    0 <= j < |names| && HasKey(qp, names[j])
    && forall i :: 0 <= i < j ==> !HasKey(qp, names[i])
  }

  /** The value _q_int computes, name by name. */
  function QIntOf(qp: seq<(string, string)>, names: seq<string>, default: Option<int>): Option<int> {
    if |names| == 0 then default
    else if !HasKey(qp, names[0]) || QueryText(qp, names[0]) == "" then QIntOf(qp, names[1..], default)
    else
      match ParseInt(QueryText(qp, names[0]))
      case Some(n) => Some(n)
      case None => default
  }

  /**
   * _q_int: the first name with a non-blank value decides — its integer, or
   * the default when it is not one (later names are not tried); blank values
   * are skipped.
   */
  lemma {:induction false} QIntFirstUsable(qp: seq<(string, string)>, names: seq<string>, default: Option<int>, j: int)
    requires FirstUsable(qp, names, j)
    ensures QIntOf(qp, names, default) ==
      (var p := ParseInt(QueryText(qp, names[j])); if p.Some? then p else default)
  {
    if j > 0 {
      assert !Usable(qp, names[0]);
      QIntFirstUsable(qp, names[1..], default, j - 1);
    }
  }

  /** _q_int with no usable name gives the default. */
  lemma {:induction false} QIntNoneUsable(qp: seq<(string, string)>, names: seq<string>, default: Option<int>)
    requires forall j :: 0 <= j < |names| ==> !Usable(qp, names[j])
    ensures QIntOf(qp, names, default) == default
  {
    if |names| > 0 {
      assert !Usable(qp, names[0]);
      QIntNoneUsable(qp, names[1..], default);
    }
  }

  /** The loop of _q_int, returning from inside it. */
  method QInt(qp: seq<(string, string)>, names: seq<string>, default: Option<int>) returns (r: Option<int>)
    ensures r == QIntOf(qp, names, default)
  {
    var i := 0;
    while i < |names|
      invariant 0 <= i <= |names|
      invariant QIntOf(qp, names, default) == QIntOf(qp, names[i..], default)
    {
      assert names[i..][1..] == names[i + 1..];
      var n := names[i];
      var got := LastValue(qp, n);
      ghost var rest := names[i..];
      assert rest[0] == n && |rest| > 0;
      assert got.Some? <==> HasKey(qp, n);
      if got.Some? {
        var raw := Strip(got.value);
        assert raw == QueryText(qp, n);
        if raw != "" {
          var p := ParseInt(raw);
          if p.Some? {
            return p;
          }
          return default;
        }
      }
      i := i + 1;
    }
    r := default;
  }

  /** The spellings _q_bool reads as "off". */
  const FalseWords: set<string> := {"0", "false", "no", "n", "off"}

  /** No spelling is both "on" and "off". */
  lemma OnOffDisjoint(w: string)
    requires w in Env.TrueWords
    ensures w !in FalseWords
  {
  }

  /** The value _q_bool computes: the first name present decides, "on" unless its value spells "off". */
  function QBoolOf(qp: seq<(string, string)>, names: seq<string>, default: bool): bool {
    if |names| == 0 then default
    else if HasKey(qp, names[0]) then Lower(QueryText(qp, names[0])) !in FalseWords
    else QBoolOf(qp, names[1..], default)
  }

  /** The first name present decides, whatever later names say; a bare or unknown value counts as "on". */
  lemma {:induction false} QBoolFirstPresent(qp: seq<(string, string)>, names: seq<string>, default: bool, j: int)
    requires FirstPresent(qp, names, j)
    ensures QBoolOf(qp, names, default) == (Lower(QueryText(qp, names[j])) !in FalseWords)
  {
    if j > 0 {
      assert !HasKey(qp, names[0]);
      QBoolFirstPresent(qp, names[1..], default, j - 1);
    }
  }

  /** No name present: the default. */
  lemma {:induction false} QBoolAbsent(qp: seq<(string, string)>, names: seq<string>, default: bool)
    requires forall j :: 0 <= j < |names| ==> !HasKey(qp, names[j])
    ensures QBoolOf(qp, names, default) == default
  {
    if |names| > 0 {
      assert !HasKey(qp, names[0]);
      QBoolAbsent(qp, names[1..], default);
    }
  }

  /** A parameter given with an empty value ("?nojs") is "on". */
  lemma QBoolBare(qp: seq<(string, string)>, n: string, default: bool)
    requires LastValue(qp, n) == Some("")
    ensures QBoolOf(qp, [n], default)
  {
    StripBlank("");
    var t := QueryText(qp, n);
    assert t == "";
    assert |Lower(t)| == 0;
    assert forall w :: w in FalseWords ==> |w| > 0;
    assert HasKey(qp, n);
    assert QBoolOf(qp, [n], default) == (Lower(t) !in FalseWords);
  }

  /** The loop of _q_bool, returning from inside it. */
  method QBool(qp: seq<(string, string)>, names: seq<string>, default: bool) returns (r: bool)
    ensures r == QBoolOf(qp, names, default)
  {
    var i := 0;
    while i < |names|
      invariant 0 <= i <= |names|
      invariant QBoolOf(qp, names, default) == QBoolOf(qp, names[i..], default)
    {
      assert names[i..][1..] == names[i + 1..];
      var n := names[i];
      var got := LastValue(qp, n);
      if got.Some? {
        var raw := Lower(Strip(got.value));
        if raw in Env.TrueWords {
          OnOffDisjoint(raw);
          return true;
        }
        if raw in FalseWords {
          return false;
        }
        return true;
      }
      i := i + 1;
    }
    r := default;
  }

  // ---------------------------------------------------------------------------
  // Index page refresh
  // ---------------------------------------------------------------------------

  /** The query names index reads the refresh period from, in order. */
  const RefreshNames: seq<string> := ["refresh", "UI_REFRESH_SEC", "ui_refresh_sec"]

  /** The longest refresh period the page accepts, in seconds. */
  const MaxRefresh := 3600

  /** The refresh period asked for: the first usable name's integer, else the configured default. */
  function RequestedRefresh(qp: seq<(string, string)>, dflt: int): int {
    QIntOf(qp, RefreshNames, Some(dflt)).GetOr(dflt)
  }

  /** With an integer default, _q_int never returns None, so index's None check never fires. */
  lemma {:induction false} QIntWithDefault(qp: seq<(string, string)>, names: seq<string>, dflt: int)
    ensures QIntOf(qp, names, Some(dflt)).Some?
  {
    if |names| > 0 {
      QIntWithDefault(qp, names[1..], dflt);
    }
  }

  /**
   * index: the refresh period is the one asked for, clamped into
   * [0, 3600]; the default covers a missing or invalid parameter.
   */
  method IndexRefresh(qp: seq<(string, string)>, dflt: int) returns (refresh: int)
    ensures 0 <= refresh <= MaxRefresh
    ensures 0 <= RequestedRefresh(qp, dflt) <= MaxRefresh ==> refresh == RequestedRefresh(qp, dflt)
    ensures RequestedRefresh(qp, dflt) < 0 ==> refresh == 0
    ensures RequestedRefresh(qp, dflt) > MaxRefresh ==> refresh == MaxRefresh
  {
    var q := QInt(qp, RefreshNames, Some(dflt));
    var r: int;
    if q.None? {
      r := dflt;
    } else {
      r := q.value;
    }
    if r < 0 {
      r := 0;
    }
    if r > MaxRefresh {
      r := MaxRefresh;
    }
    refresh := r;
  }

  /** A page asked for with ?refresh=n, n in range, refreshes every n seconds. */
  lemma RefreshAsked(qp: seq<(string, string)>, dflt: int, n: int)
    requires LastValue(qp, "refresh") == Some(Decimal(n))
    ensures RequestedRefresh(qp, dflt) == n
  {
    var t := Decimal(n);
    ParseDecimal(n);
    DecimalUnpadded(n);
    assert QueryText(qp, "refresh") == t;
    assert Usable(qp, RefreshNames[0]);
    assert FirstUsable(qp, RefreshNames, 0);
    QIntFirstUsable(qp, RefreshNames, Some(dflt), 0);
  }

  /** The meta-refresh tag: present only for a positive period, and carrying that period. */
  function MetaRefresh(refresh: int): (r: string)
    ensures r != "" <==> refresh > 0
    ensures refresh > 0 ==> Contains(r, Decimal(refresh))
  {
    if refresh > 0 then
      var pre := "<meta http-equiv=\"refresh\" content=\"";
      assert SliceAt(pre + Decimal(refresh) + "\" />", |pre|, Decimal(refresh));
      pre + Decimal(refresh) + "\" />"
    else ""
  }

  // ---------------------------------------------------------------------------
  // Summary of the latest event
  // ---------------------------------------------------------------------------

  /** The entries of the summary dictionary; Name gives each one's key. */
  datatype Field =
    | ExportCosts | WantLimit | WantEnabled | Reason | Write
    | AmberFeedin | AmberImport | AmberAge | AmberEnd
    | AlphaSoc | AlphaPload | AlphaPbat | AlphaPgrid | AlphaAge
    | GwGen | GwFeed | GwTemp | GwMeter | GwWifi
  {
    function Name(): string {
      match this
      case ExportCosts => "export_costs"
      case WantLimit => "want_limit"
      case WantEnabled => "want_enabled"
      case Reason => "reason"
      case Write => "write"
      case AmberFeedin => "amber_feedin"
      case AmberImport => "amber_import"
      case AmberAge => "amber_age"
      case AmberEnd => "amber_end"
      case AlphaSoc => "alpha_soc"
      case AlphaPload => "alpha_pload"
      case AlphaPbat => "alpha_pbat"
      case AlphaPgrid => "alpha_pgrid"
      case AlphaAge => "alpha_age"
      case GwGen => "gw_gen"
      case GwFeed => "gw_feed"
      case GwTemp => "gw_temp"
      case GwMeter => "gw_meter"
      case GwWifi => "gw_wifi"
    }
  }

  /**
   * The summary dictionary. Its nineteen keys are fixed, so it is a record
   * with one entry per key; Entry reads the entry a key names.
   */
  datatype Summary = Summary(
    exportCosts: string,
    wantLimit: string,
    wantEnabled: string,
    reason: string,
    write: string,
    amberFeedin: string,
    amberImport: string,
    amberAge: string,
    amberEnd: string,
    alphaSoc: string,
    alphaPload: string,
    alphaPbat: string,
    alphaPgrid: string,
    alphaAge: string,
    gwGen: string,
    gwFeed: string,
    gwTemp: string,
    gwMeter: string,
    gwWifi: string)
  {
    function Entry(f: Field): string {
      match f
      case ExportCosts => exportCosts
      case WantLimit => wantLimit
      case WantEnabled => wantEnabled
      case Reason => reason
      case Write => write
      case AmberFeedin => amberFeedin
      case AmberImport => amberImport
      case AmberAge => amberAge
      case AmberEnd => amberEnd
      case AlphaSoc => alphaSoc
      case AlphaPload => alphaPload
      case AlphaPbat => alphaPbat
      case AlphaPgrid => alphaPgrid
      case AlphaAge => alphaAge
      case GwGen => gwGen
      case GwFeed => gwFeed
      case GwTemp => gwTemp
      case GwMeter => gwMeter
      case GwWifi => gwWifi
    }
  }

  /** The summary before anything is known: every entry "-". */
  const Dashes: Summary := Summary("-", "-", "-", "-", "-", "-", "-", "-", "-", "-", "-", "-", "-", "-", "-", "-", "-", "-", "-")

  lemma DashesEverywhere(f: Field)
    ensures Dashes.Entry(f) == "-"
  {
  }

  /** `.get` on a nested value that is truthy but not a dictionary raises AttributeError; `owner` names that value. */
  datatype DisplayError = AttributeError(owner: string)

  /** _fmt: "-" for null, otherwise str(v) followed by the unit. */
  function Fmt(v: Json, suf: string): string {
    if v == JNull then "-" else PyStr(v) + suf
  }

  /** A missing or null value shows as "-"; any other value shows with its unit appended. */
  lemma FmtNullDash(v: Json, suf: string)
    ensures v == JNull ==> Fmt(v, suf) == "-"
    ensures v != JNull ==> EndsWith(Fmt(v, suf), suf)
  {
  }

  /** The fields of an object, none for anything else. */
  function Fields(v: Json): Obj {
    if v.JObj? then v.fields else []
  }

  /** `(data.get(key) or {}) if isinstance(data, dict) else {}`, with `data = row.get("data") or {}`. */
  function Part(row: Obj, key: string): Json {
    var data := OrEmpty(Get(row, "data"));
    if data.JObj? then OrEmpty(Get(data.fields, key)) else JObj([])
  }

  /** `sources.get(key) or {}`. */
  function Source(row: Obj, key: string): Json {
    OrEmpty(Get(Fields(Part(row, "sources")), key))
  }

  /** The first nested value, in the order the code calls `.get` on them, that is not a dictionary. */
  function FirstNonDict(row: Obj): Option<string> {
    if !Part(row, "sources").JObj? then Some("sources")
    else if !Part(row, "decision").JObj? then Some("decision")
    else if !Part(row, "actuation").JObj? then Some("actuation")
    else if !Source(row, "amber").JObj? then Some("amber")
    else if !Source(row, "alpha").JObj? then Some("alpha")
    else if !Source(row, "goodwe").JObj? then Some("goodwe")
    else None
  }

  /** How the last control-loop write went, from the actuation record. */
  function WriteText(act: Obj): string {
    if Truthy(Get(act, "write_attempted")) then
      if Truthy(Get(act, "write_ok")) then "ok" else "failed: " + Fmt(Get(act, "write_error"), "")
    else "not attempted"
  }

  /**
   * The write entry is exactly one of "ok" (a write was attempted and
   * succeeded), "not attempted", or "failed: " followed by the error ("-"
   * when there is none).
   */
  lemma WriteTrichotomy(act: Obj)
    ensures var w := WriteText(act);
      w == "ok" || w == "not attempted" || StartsWith(w, "failed: ")
    ensures WriteText(act) == "ok" <==> Truthy(Get(act, "write_attempted")) && Truthy(Get(act, "write_ok"))
    ensures WriteText(act) == "not attempted" <==> !Truthy(Get(act, "write_attempted"))
    ensures Truthy(Get(act, "write_attempted")) && !Truthy(Get(act, "write_ok")) ==>
      WriteText(act) == "failed: " + Fmt(Get(act, "write_error"), "")
    ensures Truthy(Get(act, "write_attempted")) && !Truthy(Get(act, "write_ok")) && !Has(act, "write_error") ==>
      WriteText(act) == "failed: -"
  {
    var w := WriteText(act);
    if Truthy(Get(act, "write_attempted")) && !Truthy(Get(act, "write_ok")) {
      assert w[..8] == "failed: ";
      assert w != "ok" && w != "not attempted" by {
        assert |w| >= 8 && w[0] == 'f';
      }
    }
  }

  /**
   * _extract_display: the summary the index page shows of the latest event.
   * With no event every entry is "-"; otherwise the entries are overwritten
   * one by one from the event's decision, actuation and sources, each value
   * from the event itself falling back to the row's own column. A nested
   * value that is truthy but not a dictionary makes the code raise.
   */
  method ExtractDisplay(latest: Option<Obj>) returns (r: Result<Summary, DisplayError>)
    ensures latest.None? || latest.value == [] ==> r == Success(Dashes)
    ensures latest.Some? && latest.value != [] ==>
      (r.Success? <==> FirstNonDict(latest.value).None?)
      && (r.Failure? ==> r.error == AttributeError(FirstNonDict(latest.value).value))
    ensures latest.Some? && latest.value != [] && r.Success? ==>
      var row := latest.value;
      var dec := Fields(Part(row, "decision"));
      var pct := GetOr(dec, "want_pct", Get(row, "want_pct"));
      var target := Get(dec, "target_w");
      var out := r.value;
      (Truthy(Get(dec, "export_costs")) ==> out.exportCosts == "true (costs)")
      && (!Truthy(Get(dec, "export_costs")) ==> out.exportCosts == "false (ok)")
      && (Truthy(target) ==> out.wantLimit == PyStr(pct) + "% (~" + PyStr(target) + "W)")
      && (!Truthy(target) ==> out.wantLimit == Fmt(pct, "%"))
      && out.wantEnabled == Fmt(GetOr(dec, "want_enabled", Get(row, "want_enabled")), "")
      && out.reason == Fmt(GetOr(dec, "reason", Get(row, "reason")), "")
      && out.write == WriteText(Fields(Part(row, "actuation")))
    ensures latest.Some? && latest.value != [] && r.Success? ==>
      var row := latest.value;
      var amber := Fields(Source(row, "amber"));
      var alpha := Fields(Source(row, "alpha"));
      var gw := Fields(Source(row, "goodwe"));
      var out := r.value;
      out.amberFeedin == Fmt(Get(amber, "feedin_c"), "c")
      && out.amberImport == Fmt(Get(amber, "import_c"), "c")
      && out.amberAge == Fmt(Get(amber, "age_s"), "s")
      && out.amberEnd == Fmt(Get(amber, "interval_end_utc"), "")
      && out.alphaSoc == Fmt(Get(alpha, "soc_pct"), "%")
      && out.alphaPload == Fmt(Get(alpha, "pload_w"), "W")
      && out.alphaPbat == Fmt(Get(alpha, "pbat_w"), "W")
      && out.alphaPgrid == Fmt(Get(alpha, "pgrid_w"), "W")
      && out.alphaAge == Fmt(Get(alpha, "age_s"), "s")
      && out.gwGen == Fmt(Get(gw, "gen_w"), "W")
      && out.gwFeed == Fmt(Get(gw, "feed_w"), "W")
      && out.gwTemp == Fmt(Get(gw, "temp_c"), "C")
      && out.gwMeter == Fmt(Get(gw, "meter_ok"), "")
      && out.gwWifi == Fmt(Get(gw, "wifi_pct"), "%")
  {
    var out := Dashes;
    if latest.None? || latest.value == [] {
      return Success(out);
    }
    var row := latest.value;
    var sources := Part(row, "sources");
    var decision := Part(row, "decision");
    var act := Part(row, "actuation");

    if !sources.JObj? {
      return Failure(AttributeError("sources"));
    }
    var amber := Source(row, "amber");
    var alpha := Source(row, "alpha");
    var goodwe := Source(row, "goodwe");

    if !decision.JObj? {
      return Failure(AttributeError("decision"));
    }
    var dec := Fields(decision);
    var costs := Get(dec, "export_costs");
    var wantPct := GetOr(dec, "want_pct", Get(row, "want_pct"));
    var targetW := Get(dec, "target_w");
    var wantLimit := if Truthy(targetW) then PyStr(wantPct) + "% (~" + PyStr(targetW) + "W)" else Fmt(wantPct, "%");
    out := out.(
      exportCosts := if Truthy(costs) then "true (costs)" else "false (ok)",
      wantLimit := wantLimit,
      wantEnabled := Fmt(GetOr(dec, "want_enabled", Get(row, "want_enabled")), ""),
      reason := Fmt(GetOr(dec, "reason", Get(row, "reason")), ""));

    if !act.JObj? {
      return Failure(AttributeError("actuation"));
    }
    var a := Fields(act);
    if Truthy(Get(a, "write_attempted")) {
      out := out.(write := if Truthy(Get(a, "write_ok")) then "ok" else "failed: " + Fmt(Get(a, "write_error"), ""));
    } else {
      out := out.(write := "not attempted");
    }

    if !amber.JObj? {
      return Failure(AttributeError("amber"));
    }
    var am := Fields(amber);
    out := out.(
      amberFeedin := Fmt(Get(am, "feedin_c"), "c"),
      amberImport := Fmt(Get(am, "import_c"), "c"),
      amberAge := Fmt(Get(am, "age_s"), "s"),
      amberEnd := Fmt(Get(am, "interval_end_utc"), ""));

    if !alpha.JObj? {
      return Failure(AttributeError("alpha"));
    }
    var al := Fields(alpha);
    out := out.(
      alphaSoc := Fmt(Get(al, "soc_pct"), "%"),
      alphaPload := Fmt(Get(al, "pload_w"), "W"),
      alphaPbat := Fmt(Get(al, "pbat_w"), "W"),
      alphaPgrid := Fmt(Get(al, "pgrid_w"), "W"),
      alphaAge := Fmt(Get(al, "age_s"), "s"));

    if !goodwe.JObj? {
      return Failure(AttributeError("goodwe"));
    }
    var gw := Fields(goodwe);
    out := out.(
      gwGen := Fmt(Get(gw, "gen_w"), "W"),
      gwFeed := Fmt(Get(gw, "feed_w"), "W"),
      gwTemp := Fmt(Get(gw, "temp_c"), "C"),
      gwMeter := Fmt(Get(gw, "meter_ok"), ""),
      gwWifi := Fmt(Get(gw, "wifi_pct"), "%"));
    return Success(out);
  }

  /** The summary keys are the nineteen distinct names the page template reads. */
  lemma FieldNamesDistinct(f: Field, g: Field)
    requires f != g
    ensures f.Name() != g.Name()
  {
  }
}
