/** The ICMP probe (pkg/agent/icmp.go, ProbeICMP): run ping, find the
    loss and round-trip summary lines in its output, cut the two numbers
    out of them and wrap them in a two-record batch. Running the command
    is an input (`cmdOk`, `output`), as are strconv.ParseFloat (`parse`)
    and the clock, read once per record (`dropAt`, `latencyAt`). An index
    fault in the field extraction is recovered in the source and the probe
    returns nothing; here it is the None of LossField / LatencyField. */
module AgentIcmp {
  import opened Common
  import opened Strings

  const LossMarker: string := "packets transmitted"
  const LatencyMarker: string := "min/avg/max/mdev"

  /** The loss line: the last line mentioning "packets transmitted", or ""
      when there is none. */
  function LastLossLine(lines: seq<string>): string {
    if lines == [] then ""
    else if Contains(lines[|lines| - 1], LossMarker) then lines[|lines| - 1]
    else LastLossLine(lines[..|lines| - 1])
  }

  /** The latency line: the last line mentioning "min/avg/max/mdev" among
      those that do not mention "packets transmitted" (the scan moves on
      after a loss line), or "". */
  function LastLatencyLine(lines: seq<string>): string {
    if lines == [] then ""
    else
      var line := lines[|lines| - 1];
      if !Contains(line, LossMarker) && Contains(line, LatencyMarker) then line
      else LastLatencyLine(lines[..|lines| - 1])
  }

  /** The scan over the output lines, keeping the latest match of each kind. */
  method ScanSummaryLines(lines: seq<string>) returns (pkgdLine: string, latenLine: string)
    ensures pkgdLine == LastLossLine(lines)
    ensures latenLine == LastLatencyLine(lines)
  {
    pkgdLine := "";
    latenLine := "";
    var i := 0;
    while i < |lines|
      invariant 0 <= i <= |lines|
      invariant pkgdLine == LastLossLine(lines[..i])
      invariant latenLine == LastLatencyLine(lines[..i])
    {
      var line := lines[i];
      assert lines[..i + 1][..i] == lines[..i];
      if Contains(line, LossMarker) {
        pkgdLine := line;
      } else if Contains(line, LatencyMarker) {
        latenLine := line;
      }
      i := i + 1;
    }
    assert lines[..i] == lines;
  }

  /** The loss line is the last line with the loss marker: it is one of the
      lines, it carries the marker and no later line does; it is "" only
      when no line carries the marker. */
  lemma {:induction false} LastLossLineIsLast(lines: seq<string>)
    ensures var r := LastLossLine(lines);
      || (r == "" && forall j | 0 <= j < |lines| :: !Contains(lines[j], LossMarker))
      || (exists i | 0 <= i < |lines| :: lines[i] == r && Contains(r, LossMarker) &&
            forall j | i < j < |lines| :: !Contains(lines[j], LossMarker))
  {
    if lines != [] {
      var n := |lines| - 1;
      var prefix := lines[..n];
      if !Contains(lines[n], LossMarker) {
        LastLossLineIsLast(prefix);
        assert forall j | 0 <= j < n :: prefix[j] == lines[j];
      }
    }
  }

  /** The latency line is the last line with the latency marker and
      without the loss marker: it is one of the lines, it qualifies and no
      later line does; it is "" only when no line qualifies. */
  lemma {:induction false} LastLatencyLineIsLast(lines: seq<string>)
    ensures var r := LastLatencyLine(lines);
      || (r == "" && forall j | 0 <= j < |lines| ::
            !(!Contains(lines[j], LossMarker) && Contains(lines[j], LatencyMarker)))
      || (exists i | 0 <= i < |lines| :: lines[i] == r &&
            !Contains(r, LossMarker) && Contains(r, LatencyMarker) &&
            forall j | i < j < |lines| :: !(!Contains(lines[j], LossMarker) && Contains(lines[j], LatencyMarker)))
  {
    if lines != [] {
      var n := |lines| - 1;
      var prefix := lines[..n];
      if !(!Contains(lines[n], LossMarker) && Contains(lines[n], LatencyMarker)) {
        LastLatencyLineIsLast(prefix);
        assert forall j | 0 <= j < n :: prefix[j] == lines[j];
      }
    }
  }

  /** The packet-loss text: the sixth space-separated field with every '%'
      removed, or None when the line has fewer fields. */
  function LossField(pkgdLine: string): (f: Option<string>)
    ensures f.Some? <==> |Split(pkgdLine, ' ')| > 5
    ensures f.Some? ==> '%' !in f.value
  {
    var fields := Split(pkgdLine, ' ');
    if |fields| > 5 then Some(RemoveChar(fields[5], '%')) else None
  }

  /** The latency text: the second '/'-piece of the next-to-last
      space-separated field (with ping -A this is the ewma of the
      "ipg/ewma" pair), or None when either piece is missing. */
  function LatencyField(latenLine: string): Option<string> {
    var fields := Split(latenLine, ' ');
    if |fields| < 2 then None
    else
      var pieces := Split(fields[|fields| - 2], '/');
      if |pieces| < 2 then None else Some(pieces[1])
  }

  /** The latency text is a single number-like token: it holds neither a
      space nor a slash, and it is missing exactly when the line has fewer
      than two fields or that field has no slash. */
  lemma LatencyFieldToken(latenLine: string)
    ensures var f := LatencyField(latenLine);
      var fields := Split(latenLine, ' ');
      && (f.None? <==> |fields| < 2 || '/' !in fields[|fields| - 2])
      && (f.Some? ==> '/' !in f.value && ' ' !in f.value)
  {
    var fields := Split(latenLine, ' ');
    JoinSplit(latenLine, ' ');
    if |fields| >= 2 {
      var field := fields[|fields| - 2];
      var pieces := Split(field, '/');
      JoinSplit(field, '/');
      if '/' !in field {
        SplitNoSep(field, '/');
      }
      if |pieces| >= 2 {
        JoinContains(pieces, '/', 1);
        JoinContains(fields, ' ', |fields| - 2);
        assert '/' in field by {
          assert field == Join(pieces, '/') == pieces[0] + ['/'] + Join(pieces[1..], '/');
        }
      }
    }
  }

  /** A piece of a join is contained in it. */
  lemma {:induction false} JoinContains(parts: seq<string>, sep: char, i: nat)
    requires i < |parts|
    ensures forall c | c in parts[i] :: c in Join(parts, sep)
  {
    if |parts| > 1 && i > 0 {
      JoinContains(parts[1..], sep, i - 1);
      assert parts[1..][i - 1] == parts[i];
    }
  }

  /** strconv.ParseFloat with the error ignored: unparseable text is 0. */
  function NumberOrZero(parse: string -> Option<real>, text: string): (v: real)
    ensures parse(text).None? ==> v == 0.0
    ensures parse(text).Some? ==> v == parse(text).value
  {
    match parse(text)
    case Some(x) => x
    case None => 0.0
  }

  /** The two records of a successful parse: packet drop, then latency. */
  function IcmpRecords(localIp: string, localRegion: string, addr: string, targetRegion: string,
                       probeType: string, dropAt: int, latencyAt: int, drop: real, latency: real): seq<ProbeResult>
  {
    [ ProbeResult(MetricsNamePingPackageDrop, localIp, localRegion, targetRegion, probeType, addr, dropAt, drop),
      ProbeResult(MetricsNamePingLatency, localIp, localRegion, targetRegion, probeType, addr, latencyAt, latency) ]
  }

  /** The batch ProbeICMP returns for one command outcome. */
  function IcmpBatch(localIp: string, localRegion: string, addr: string, targetRegion: string, probeType: string,
                     dropAt: int, latencyAt: int, cmdOk: bool, output: string, parse: string -> Option<real>): seq<ProbeResult>
  {
    if !cmdOk then []
    else
      var lines := Split(output, '\n');
      match (LossField(LastLossLine(lines)), LatencyField(LastLatencyLine(lines)))
      case (Some(loss), Some(latency)) =>
        IcmpRecords(localIp, localRegion, addr, targetRegion, probeType, dropAt, latencyAt,
                    NumberOrZero(parse, loss), NumberOrZero(parse, latency))
      case _ => []
  }

  /** ProbeICMP for the worker probing `addr` in `targetRegion`, running on
      the agent `localIp` in `localRegion`. */
  method ProbeIcmp(localIp: string, localRegion: string, addr: string, targetRegion: string, probeType: string,
                   dropAt: int, latencyAt: int, cmdOk: bool, output: string, parse: string -> Option<real>)
    returns (prs: seq<ProbeResult>)
    ensures prs == IcmpBatch(localIp, localRegion, addr, targetRegion, probeType, dropAt, latencyAt, cmdOk, output, parse)
  {
    prs := [];
    if !cmdOk {
      return;
    }
    var pkgdLine, latenLine := ScanSummaryLines(Split(output, '\n'));
    var pkgRate := LossField(pkgdLine);
    if pkgRate.None? {
      return [];
    }
    var pingEwma := LatencyField(latenLine);
    if pingEwma.None? {
      return [];
    }
    var prDr := ProbeResult(MetricsNamePingPackageDrop, localIp, localRegion, targetRegion, probeType, addr, dropAt,
                            NumberOrZero(parse, pkgRate.value));
    var prLaten := ProbeResult(MetricsNamePingLatency, localIp, localRegion, targetRegion, probeType, addr, latencyAt,
                               NumberOrZero(parse, pingEwma.value));
    prs := prs + [prDr];
    prs := prs + [prLaten];
  }

  /** A failed command, a missing loss field or a missing latency field
      gives an empty batch; anything else gives exactly the drop record and
      then the latency record, both labelled with the agent and the worker. */
  lemma IcmpBatchShape(localIp: string, localRegion: string, addr: string, targetRegion: string, probeType: string,
                       dropAt: int, latencyAt: int, cmdOk: bool, output: string, parse: string -> Option<real>)
    ensures var prs := IcmpBatch(localIp, localRegion, addr, targetRegion, probeType, dropAt, latencyAt, cmdOk, output, parse);
      var lines := Split(output, '\n');
      && (prs == [] <==> !cmdOk || LossField(LastLossLine(lines)).None? || LatencyField(LastLatencyLine(lines)).None?)
      && (prs != [] ==>
            && |prs| == 2
            && prs[0].metricName == MetricsNamePingPackageDrop
            && prs[1].metricName == MetricsNamePingLatency
            && forall r | r in prs ::
                 && r.workerName == localIp && r.sourceRegion == localRegion
                 && r.targetAddr == addr && r.targetRegion == targetRegion
                 && r.probeType == probeType)
      && (prs != [] ==> prs[0].timeStamp == dropAt && prs[1].timeStamp == latencyAt)
  {
  }

  /** On a line made of space-free fields, the loss is the sixth field
      without its percent signs. */
  lemma LossFieldOfFields(fields: seq<string>)
    requires |fields| > 5
    requires forall i | 0 <= i < |fields| :: ' ' !in fields[i]
    ensures LossField(Join(fields, ' ')) == Some(RemoveChar(fields[5], '%'))
  {
    SplitJoin(fields, ' ');
  }

  /** On a line made of space-free fields whose next-to-last field is a
      '/'-join of slash-free pieces, the latency is the second piece. */
  lemma LatencyFieldOfFields(fields: seq<string>, pieces: seq<string>)
    requires |fields| >= 2 && |pieces| >= 2
    requires forall i | 0 <= i < |fields| :: ' ' !in fields[i]
    requires forall i | 0 <= i < |pieces| :: '/' !in pieces[i]
    requires fields[|fields| - 2] == Join(pieces, '/')
    ensures LatencyField(Join(fields, ' ')) == Some(pieces[1])
  {
    SplitJoin(fields, ' ');
    SplitJoin(pieces, '/');
  }

  /** A ping loss line: "0%" reads as "0". */
  lemma LossFieldExample()
    ensures LossField(Join(["50", "packets", "transmitted,", "50", "received,", "0%", "packet", "loss,"], ' ')) == Some("0")
  {
    var loss := ["50", "packets", "transmitted,", "50", "received,", "0%", "packet", "loss,"];
    assert forall i | 0 <= i < |loss| :: ' ' !in loss[i];
    LossFieldOfFields(loss);
    assert RemoveChar("0%", '%') == "0" by {
      assert "0%"[1..] == "%";
      assert "%"[1..] == "";
    }
  }

  /** A `ping -A` round-trip line: the latency is the ewma of
      "ipg/ewma 0.100/0.040". */
  lemma LatencyFieldExample()
    ensures LatencyField(Join(["rtt", "min/avg/max/mdev", "=", "0.03/0.04/0.1/0.01", "ms,", "ipg/ewma", "0.100/0.040", "ms"], ' ')) == Some("0.040")
  {
    var lat := ["rtt", "min/avg/max/mdev", "=", "0.03/0.04/0.1/0.01", "ms,", "ipg/ewma", "0.100/0.040", "ms"];
    assert forall i | 0 <= i < |lat| :: ' ' !in lat[i];
    var pieces := ["0.100", "0.040"];
    assert Join(pieces, '/') == "0.100" + "/" + "0.040" == "0.100/0.040";
    assert '/' !in pieces[0] && '/' !in pieces[1];
    LatencyFieldOfFields(lat, pieces);
  }
}
