/** Application start-up: the list of origins allowed by the CORS policy,
    parsed from the comma-separated setting, and the liveness endpoint. */
module Service {
  import opened Text

  /** The setting's default value. */
  const DefaultAllowedOrigins: string := "http://localhost:5173"

  /** Each comma-separated piece of the setting, stripped of surrounding
      whitespace, in order; empty pieces stay. */
  function ParseOrigins(setting: string): (origins: seq<string>)
    ensures |origins| == Count(setting, ',') + 1
    ensures forall i :: 0 <= i < |origins| ==> Trimmed(origins[i]) && ',' !in origins[i]
    ensures forall i :: 0 <= i < |origins| ==> origins[i] == Strip(Split(setting, ',')[i])
  {
    var parts := Split(setting, ',');
    seq(|parts|, i requires 0 <= i < |parts| => Strip(parts[i]))
  }

  /** Origins that are already trimmed and comma-free survive a trip through
      the setting: joining them with commas and parsing gives them back. */
  lemma ParseJoinedOrigins(origins: seq<string>)
    requires |origins| >= 1
    requires forall i :: 0 <= i < |origins| ==> Trimmed(origins[i]) && ',' !in origins[i]
    ensures ParseOrigins(Join(origins, ',')) == origins
  {
    SplitJoin(origins, ',');
    forall i | 0 <= i < |origins|
      ensures Strip(origins[i]) == origins[i]
    {
      StripTrimmed(origins[i]);
    }
  }

  /** The default setting allows exactly the local development front end. */
  lemma DefaultOrigins()
    ensures ParseOrigins(DefaultAllowedOrigins) == [DefaultAllowedOrigins]
  {
    var s := DefaultAllowedOrigins;
    assert Trimmed(s) && ',' !in s;
    ParseJoinedOrigins([s]);
  }

  /** Empty pieces are kept, not dropped. */
  lemma EmptyPieceKept()
    ensures ParseOrigins("a,,b") == ["a", "", "b"]
  {
    assert Join(["a", "", "b"], ',') == "a,,b";
    ParseJoinedOrigins(["a", "", "b"]);
  }

  /** The body of the liveness response. */
  datatype HealthReply = HealthReply(status: string, service: string)

  /** GET /: the same reply on every call. */
  function Health(): (h: HealthReply)
    ensures h.status == "ok" && h.service == "smart-report-generator"
  {
    HealthReply("ok", "smart-report-generator")
  }
}
