/** Reading integer and boolean settings from environment variables (`os.getenv`), with a default. */
module Env {
  import opened Wrappers
  import opened PyText

  /** The spellings every boolean setting and query flag accepts as "on" after trimming and lowering. */
  const TrueWords: set<string> := {"1", "true", "yes", "y", "on"}

  /**
   * _env_int: unset or empty gives the default, otherwise int() of the text,
   * and the default again when int() raises. `v` is what os.getenv returned.
   */
  function EnvInt(v: Option<string>, default: int): (r: int)
    ensures v.None? || v == Some("") ==> r == default
    ensures r != default ==> v.Some? && ParseInt(v.value) == Some(r)
    ensures v.Some? && ParseInt(v.value).None? ==> r == default
    ensures v.Some? && v.value != "" && ParseInt(v.value).Some? ==> r == ParseInt(v.value).value
  {
    if v.None? || v.value == "" then default
    else match ParseInt(v.value)
      case Some(n) => n
      case None => default
  }

  /** Setting a variable to str(n) makes _env_int read back n, whatever the default. */
  lemma EnvIntDecimal(n: int, default: int)
    ensures EnvInt(Some(Decimal(n)), default) == n
  {
    ParseDecimal(n);
  }

  /**
   * _env_bool of the ingester: unset or empty gives the default; any other
   * value is "on" exactly when, trimmed and lower-cased, it is one of TrueWords
   * (so a value of only blanks is "off", not the default).
   */
  function IngestEnvBool(v: Option<string>, default: bool): (r: bool)
    ensures v.None? || v == Some("") ==> r == default
    ensures v.Some? && v.value != "" ==> (r <==> Lower(Strip(v.value)) in TrueWords)
  {
    if v.None? || v.value == "" then default
    else Lower(Strip(v.value)) in TrueWords
  }

  /** Each accepted spelling reads as itself after strip() and lower(). */
  lemma OnWordPlain(w: string)
    requires w in TrueWords
    ensures |w| > 0 && Lower(Strip(w)) == w
  {
    StripUnpadded(w);
    assert Lower(w) == w;
  }

  /** Each accepted spelling switches the setting on, whatever the default. */
  lemma IngestEnvBoolWords(default: bool)
    ensures forall w :: w in TrueWords ==> IngestEnvBool(Some(w), default)
  {
    forall w | w in TrueWords
      ensures IngestEnvBool(Some(w), default)
    {
      OnWordPlain(w);
    }
  }

  /** A value made only of blanks is not empty, so it does not fall back to the default: it is "off". */
  lemma IngestEnvBoolBlank(default: bool, blanks: string)
    requires blanks != "" && forall i :: 0 <= i < |blanks| ==> IsSpace(blanks[i])
    ensures !IngestEnvBool(Some(blanks), default)
  {
    StripBlank(blanks);
  }
}
