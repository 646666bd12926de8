/** The session description printer and parser (sip/sdp.go). */
module Sdp {
  import opened Words
  import opened Strings

  predicate IsDirection(d: string) { d == "sendrecv" || d == "sendonly" || d == "recvonly" || d == "inactive" }

  function CodecName(pt: u8): string {
    match pt
    case 8 => "PCMA"
    case 9 => "G722"
    case 18 => "G729"
    case 111 => "opus"
    case _ => "PCMU"
  }

  /** The encoding parameters after the codec name. */
  function Rate(pt: u8): string { if pt == 111 then "48000/2" else "8000" }

  function SdpLines(ip: string, port: int, pt: u8, direction: string, sessVer: u64): seq<string> {
    ["v=0",
     "o=k6load 0 " + Itoa(sessVer) + " IN IP4 " + ip,
     "s=xk6-sip-media load test",
     "c=IN IP4 " + ip,
     "t=0 0",
     "m=audio " + Itoa(port) + " RTP/AVP " + Itoa(pt),
     "a=rtpmap:" + Itoa(pt) + " " + CodecName(pt) + "/" + Rate(pt),
     "a=ptime:20",
     "a=" + direction]
  }

  function Text(lines: seq<string>): string {
    if lines == [] then "" else lines[0] + "\r\n" + Text(lines[1..])
  }

  function BuildSDP(ip: string, port: int, pt: u8, direction: string, sessVer: u64): string {
    Text(SdpLines(ip, port, pt, direction, sessVer))
  }

  // ---- parser ----

  datatype Media = Media(ip: string, port: int64, ptMap: map<u8, string>)

  const NOTHING := Media("", 0, map[])

  function ParseConnection(m: Media, line: string): Media {
    var parts := Fields(line);
    if HasPrefix(line, "c=IN IP4 ") && |parts| >= 3 then m.(ip := parts[2]) else m
  }

  function ParseAudio(m: Media, line: string): Media {
    var parts := Fields(line);
    if HasPrefix(line, "m=audio ") && |parts| >= 2 && Atoi(parts[1]).Some? then m.(port := Atoi(parts[1]).value) else m
  }

  function ParseRtpmap(m: Media, line: string): Media {
    if HasPrefix(line, "a=rtpmap:") then
      var parts := SplitTwo(line[9..], ' ');
      if |parts| == 2 && Atoi(parts[0]).Some?
      then m.(ptMap := m.ptMap[Atoi(parts[0]).value % 256 := ToUpper(SplitTwo(parts[1], '/')[0])])
      else m
    else m
  }

  function ParseLine(m: Media, line: string): Media {
    var line := TrimSpace(line);
    ParseRtpmap(ParseAudio(ParseConnection(m, line), line), line)
  }

  function ParseLines(m: Media, lines: seq<string>): Media
    decreases lines
  {
    if lines == [] then m else ParseLines(ParseLine(m, lines[0]), lines[1..])
  }

  function Default(ptMap: map<u8, string>, pt: u8, name: string): map<u8, string> {
    if pt in ptMap then ptMap else ptMap[pt := name]
  }

  function WithDefaults(m: Media): Media { m.(ptMap := Default(Default(m.ptMap, 0, "PCMU"), 8, "PCMA")) }

  function Parsed(body: string): Media {
    WithDefaults(ParseLines(NOTHING, Split(ReplaceCRLF(body), '\n')))
  }

  method ParseSDP(body: string) returns (ip: string, port: int64, ptMap: map<u8, string>)
    ensures Media(ip, port, ptMap) == Parsed(body)
  {
    var lines := Split(ReplaceCRLF(body), '\n');
    var connectionIP := "";
    port, ptMap := 0, map[];
    for i := 0 to |lines|
      invariant ParseLines(Media(connectionIP, port, ptMap), lines[i..]) == ParseLines(NOTHING, lines)
    {
      ghost var m := Media(connectionIP, port, ptMap);
      ghost var rest := lines[i..];
      assert rest[0] == lines[i] && rest[1..] == lines[i + 1..];
      var line := TrimSpace(lines[i]);
      if HasPrefix(line, "c=IN IP4 ") {
        var parts := Fields(line);
        if |parts| >= 3 {
          connectionIP := parts[2];
        }
      }
      assert Media(connectionIP, port, ptMap) == ParseConnection(m, line);
      ghost var m1 := Media(connectionIP, port, ptMap);
      if HasPrefix(line, "m=audio ") {
        var parts := Fields(line);
        if |parts| >= 2 {
          var p := Atoi(parts[1]);
          if p.Some? {
            port := p.value;
          }
        }
      }
      assert Media(connectionIP, port, ptMap) == ParseAudio(m1, line);
      ghost var m2 := Media(connectionIP, port, ptMap);
      if HasPrefix(line, "a=rtpmap:") {
        var parts := SplitTwo(line[9..], ' ');
        if |parts| == 2 {
          var pt := Atoi(parts[0]);
          if pt.Some? {
            var codecParts := SplitTwo(parts[1], '/');
            ptMap := ptMap[pt.value % 256 := ToUpper(codecParts[0])];
          }
        }
      }
      assert Media(connectionIP, port, ptMap) == ParseRtpmap(m2, line);
    }
    if 0 !in ptMap {
      ptMap := ptMap[0 := "PCMU"];
    }
    if 8 !in ptMap {
      ptMap := ptMap[8 := "PCMA"];
    }
    ip := connectionIP;
  }

  // ---- line ends ----

  /** Without line feeds. */
  predicate Plain(s: string) { '\n' !in s }

  /** Line by line, b is a up to one trailing carriage return. */
  ghost predicate SameUpToCR(a: seq<string>, b: seq<string>) {
    |a| == |b| && forall i :: 0 <= i < |a| ==> b[i] == a[i] || b[i] == a[i] + "\r"
  }

  lemma SplitAtCRLF(t: string)
    ensures Split("\r\n" + t, '\n') == ["\r"] + Split(t, '\n')
    ensures Split("\n" + t, '\n') == [""] + Split(t, '\n')
  {
    assert "\r\n" + t == "\r" + ['\n'] + t;
    SplitAt("\r", '\n', t);
    assert "\n" + t == "" + ['\n'] + t;
    SplitAt("", '\n', t);
  }

  /** Putting the same character in front of both texts keeps their lines the same up to carriage returns. */
  lemma SameUpToCRCons(c: char, a: string, b: string)
    requires SameUpToCR(Split(a, '\n'), Split(b, '\n'))
    ensures SameUpToCR(Split([c] + a, '\n'), Split([c] + b, '\n'))
  {
    assert ([c] + a)[1..] == a && ([c] + b)[1..] == b;
    var x, y := Split(a, '\n')[0], Split(b, '\n')[0];
    assert y == x + "\r" ==> [c] + y == [c] + x + "\r";
  }

  lemma {:induction false} ReplaceOnlyDropsCR(s: string)
    ensures SameUpToCR(Split(ReplaceCRLF(s), '\n'), Split(s, '\n'))
  {
    hide Split;
    if |s| >= 2 && s[0] == '\r' && s[1] == '\n' {
      ReplaceOnlyDropsCR(s[2..]);
      assert s == "\r\n" + s[2..];
      SplitAtCRLF(s[2..]);
      SplitAtCRLF(ReplaceCRLF(s[2..]));
      assert "" + "\r" == "\r";
    } else if s != "" {
      ReplaceOnlyDropsCR(s[1..]);
      assert s == [s[0]] + s[1..];
      SameUpToCRCons(s[0], ReplaceCRLF(s[1..]), s[1..]);
    }
  }

  lemma {:induction false} SameUpToCRParsesSame(m: Media, a: seq<string>, b: seq<string>)
    requires SameUpToCR(a, b)
    ensures ParseLines(m, a) == ParseLines(m, b)
    decreases a
  {
    if a != [] {
      hide ParseConnection, ParseAudio, ParseRtpmap, TrimSpace;
      TrimSpaceAppend(a[0], '\r');
      SameUpToCRParsesSame(ParseLine(m, a[0]), a[1..], b[1..]);
    }
  }

  /** Turning CRLF into LF first changes no result: lines are trimmed anyway. */
  lemma LineEndsDoNotMatter(body: string)
    ensures Parsed(body) == WithDefaults(ParseLines(NOTHING, Split(body, '\n')))
    ensures Parsed(body) == Parsed(ReplaceCRLF(body))
  {
    ReplaceOnlyDropsCR(body);
    SameUpToCRParsesSame(NOTHING, Split(ReplaceCRLF(body), '\n'), Split(body, '\n'));
    ReplaceOnlyDropsCR(ReplaceCRLF(body));
    SameUpToCRParsesSame(NOTHING, Split(ReplaceCRLF(ReplaceCRLF(body)), '\n'), Split(ReplaceCRLF(body), '\n'));
  }

  lemma ParseLastLine(m: Media)
    ensures ParseLines(m, [""]) == m
  {
    assert ParseLine(m, "") == m;
  }

  /** Lines free of line feeds come back out of the printed text as they went in. */
  lemma {:induction false} TextParses(m: Media, lines: seq<string>)
    requires forall i :: 0 <= i < |lines| ==> Plain(lines[i])
    ensures ParseLines(m, Split(Text(lines), '\n')) == ParseLines(m, lines)
    decreases lines
  {
    hide ParseLine;
    if lines == [] {
      ParseLastLine(m);
    } else {
      var l, rest := lines[0], Text(lines[1..]);
      assert Text(lines) == (l + "\r") + ['\n'] + rest;
      SplitAt(l + "\r", '\n', rest);
      var s := Split(rest, '\n');
      assert ([l + "\r"] + s)[1..] == s;
      ParseCR(m, l);
      TextParses(ParseLine(m, l), lines[1..]);
    }
  }

  lemma ParseCR(m: Media, line: string)
    ensures ParseLine(m, line + "\r") == ParseLine(m, line)
  {
    hide TrimSpace;
    TrimSpaceAppend(line, '\r');
  }

  // ---- single lines ----

  /** A line that starts with another letter than c, m and a says nothing to the parser. */
  lemma OtherLine(m: Media, line: string)
    requires line != "" && !IsSpace(line[0]) && line[0] != 'c' && line[0] != 'm' && line[0] != 'a'
    ensures ParseLine(m, line) == m
  {
    TrimRightPrefix(line);
  }

  lemma OtherAttribute(m: Media, line: string)
    requires |line| > 3 && line[0] == 'a' && (line[2] != 'r' || line[3] != 't') && !IsSpace(line[|line| - 1])
    ensures ParseLine(m, line) == m
  {
    hide Fields, Atoi, SplitTwo;
    assert TrimSpace(line) == line;
    assert "a=rtpmap:"[2] == 'r' && "a=rtpmap:"[3] == 't';
  }

  lemma ConnectionFields(ip: string)
    requires Spaceless(ip) && ip != ""
    ensures Fields("c=IN IP4 " + ip) == ["c=IN", "IP4", ip]
  {
    hide Fields;
    var t1 := " " + ip;
    var t2 := " " + ("IP4" + t1);
    FieldsLast(ip);
    FieldsBlank(ip);
    FieldsWord("IP4", t1);
    FieldsBlank("IP4" + t1);
    FieldsWord("c=IN", t2);
    assert "c=IN" + t2 == "c=IN IP4 " + ip;
  }

  lemma TrimEmptyConnection()
    ensures TrimSpace("c=IN IP4 ") == "c=IN IP4"
  {
    var line := "c=IN IP4 ";
    assert TrimLeft(line) == line;
    assert line[..8] == "c=IN IP4";
    assert TrimRight("c=IN IP4") == "c=IN IP4";
  }

  lemma ConnectionLine(m: Media, ip: string)
    requires Spaceless(ip) && (ip == "" ==> m.ip == "")
    ensures ParseLine(m, "c=IN IP4 " + ip) == m.(ip := ip)
  {
    hide Fields, TrimSpace;
    var line := "c=IN IP4 " + ip;
    if ip == "" {
      assert line == "c=IN IP4 ";
      TrimEmptyConnection();
      assert "m=audio "[0] == 'm' && "a=rtpmap:"[0] == 'a' && "c=IN IP4"[0] == 'c' && |"c=IN IP4"| < |line|;
    } else {
      assert line[|line| - 1] == ip[|ip| - 1];
      TrimNothing(line);
      ConnectionFields(ip);
    }
  }

  lemma TrimNothing(line: string)
    requires line != "" && !IsSpace(line[0]) && !IsSpace(line[|line| - 1])
    ensures TrimSpace(line) == line
  {}

  lemma AudioFields(port: int64, rest: string)
    ensures var f := Fields("m=audio " + Itoa(port) + " " + rest); |f| >= 2 && f[1] == Itoa(port)
  {
    hide Fields, Itoa;
    var num, tail := Itoa(port), " " + rest;
    ItoaPlain(port);
    FieldsWord(num, tail);
    FieldsBlank(num + tail);
    var t := " " + (num + tail);
    FieldsWord("m=audio", t);
    assert "m=audio" + t == "m=audio " + num + " " + rest;
  }

  lemma AudioLine(m: Media, port: int64, pt: u8)
    ensures ParseLine(m, "m=audio " + Itoa(port) + " RTP/AVP " + Itoa(pt)) == m.(port := port)
  {
    hide Itoa, Atoi, Fields, TrimSpace;
    var line := "m=audio " + Itoa(port) + " RTP/AVP " + Itoa(pt);
    ItoaPlain(pt);
    assert line[|line| - 1] == Itoa(pt)[|Itoa(pt)| - 1];
    TrimNothing(line);
    assert line == "m=audio " + Itoa(port) + " " + ("RTP/AVP " + Itoa(pt));
    AudioFields(port, "RTP/AVP " + Itoa(pt));
    AtoiItoa(port);
  }

  /** Any 64-bit number stands for the payload type in its low eight bits. */
  lemma RtpmapParses(m: Media, pt: int64, name: string, rate: string)
    requires '/' !in name && rate != "" && !IsSpace(rate[|rate| - 1])
    ensures ParseLine(m, "a=rtpmap:" + Itoa(pt) + " " + name + "/" + rate) ==
            m.(ptMap := m.ptMap[pt % 256 := ToUpper(name)])
  {
    hide Itoa, Atoi, ToUpper, TrimSpace, SplitTwo;
    var num := Itoa(pt);
    var line := "a=rtpmap:" + num + " " + name + "/" + rate;
    assert line[|line| - 1] == rate[|rate| - 1];
    TrimNothing(line);
    ItoaPlain(pt);
    var codec := name + ['/'] + rate;
    assert line[9..] == num + [' '] + codec;
    SplitAt(num, ' ', codec);
    SplitAt(name, '/', rate);
    AtoiItoa(pt);
    assert HasPrefix(line, "a=rtpmap:");
    assert !HasPrefix(line, "c=IN IP4 ") && !HasPrefix(line, "m=audio ") by {
      assert line[0] == 'a' && "c=IN IP4 "[0] == 'c' && "m=audio "[0] == 'm';
    }
  }

  lemma RtpmapLine(m: Media, pt: u8)
    ensures ParseLine(m, "a=rtpmap:" + Itoa(pt) + " " + CodecName(pt) + "/" + Rate(pt)) ==
            m.(ptMap := m.ptMap[pt := ToUpper(CodecName(pt))])
  {
    hide ParseLine, Itoa, ToUpper;
    RtpmapParses(m, pt, CodecName(pt), Rate(pt));
  }

  // ---- the round trip ----

  lemma Unfold(m: Media, lines: seq<string>, k: nat)
    requires k < |lines|
    ensures ParseLines(m, lines[k..]) == ParseLines(ParseLine(m, lines[k]), lines[k + 1..])
  {
    assert lines[k..][1..] == lines[k + 1..];
  }

  lemma ParseNothing(m: Media)
    ensures ParseLines(m, []) == m
  {}

  /** The lines from the media line on. */
  lemma MediaLinesParse(m: Media, ip: string, port: int64, pt: u8, direction: string, sessVer: u64)
    requires IsDirection(direction)
    ensures ParseLines(m, SdpLines(ip, port, pt, direction, sessVer)[5..]) ==
            m.(port := port, ptMap := m.ptMap[pt := ToUpper(CodecName(pt))])
  {
    hide ParseLine, ParseLines, ToUpper, Itoa, CodecName, Rate;
    var l := SdpLines(ip, port, pt, direction, sessVer);
    assert l[9..] == [];
    var n := m.(port := port);
    AudioLine(m, port, pt);
    Unfold(m, l, 5);
    var q := n.(ptMap := n.ptMap[pt := ToUpper(CodecName(pt))]);
    RtpmapLine(n, pt);
    Unfold(n, l, 6);
    OtherAttribute(q, l[7]);
    Unfold(q, l, 7);
    OtherAttribute(q, l[8]);
    Unfold(q, l, 8);
    ParseNothing(q);
  }

  lemma LinesParse(ip: string, port: int64, pt: u8, direction: string, sessVer: u64)
    requires Spaceless(ip) && IsDirection(direction)
    ensures ParseLines(NOTHING, SdpLines(ip, port, pt, direction, sessVer)) ==
            Media(ip, port, map[pt := ToUpper(CodecName(pt))])
  {
    hide ParseLine, ParseLines, ToUpper, Itoa, CodecName, Rate, Spaceless, IsDirection;
    var l := SdpLines(ip, port, pt, direction, sessVer);
    assert l[0..] == l;
    OtherLine(NOTHING, l[0]);
    Unfold(NOTHING, l, 0);
    OtherLine(NOTHING, l[1]);
    Unfold(NOTHING, l, 1);
    OtherLine(NOTHING, l[2]);
    Unfold(NOTHING, l, 2);
    var m := NOTHING.(ip := ip);
    ConnectionLine(NOTHING, ip);
    Unfold(NOTHING, l, 3);
    OtherLine(m, l[4]);
    Unfold(m, l, 4);
    MediaLinesParse(m, ip, port, pt, direction, sessVer);
  }

  lemma PlainJoin(a: string, b: string)
    requires Plain(a) && Plain(b)
    ensures Plain(a + b)
  {}

  lemma NamePlain(pt: u8)
    ensures Plain(CodecName(pt)) && Plain(Rate(pt))
  {}

  lemma PlainVariables(ip: string, direction: string)
    requires Spaceless(ip) && IsDirection(direction)
    ensures Plain(ip) && Plain(direction)
  {}

  lemma PlainPieces()
    ensures Plain("o=k6load 0 ") && Plain(" IN IP4 ") && Plain("c=IN IP4 ") && Plain("m=audio ") && Plain(" RTP/AVP ")
    ensures Plain("a=rtpmap:") && Plain(" ") && Plain("/") && Plain("a=")
  {}

  lemma PlainLines()
    ensures Plain("v=0") && Plain("s=xk6-sip-media load test") && Plain("t=0 0") && Plain("a=ptime:20")
  {}

  lemma LinesPlain(ip: string, port: int64, pt: u8, direction: string, sessVer: u64)
    requires Spaceless(ip) && IsDirection(direction)
    ensures var l := SdpLines(ip, port, pt, direction, sessVer); forall i :: 0 <= i < |l| ==> Plain(l[i])
  {
    hide Itoa, Plain, CodecName, Rate, Spaceless, IsDirection;
    PlainVariables(ip, direction);
    PlainPieces();
    PlainLines();
    NamePlain(pt);
    PlainNumbers(port, pt, sessVer);
    PlainJoin("o=k6load 0 ", Itoa(sessVer));
    PlainJoin("o=k6load 0 " + Itoa(sessVer), " IN IP4 ");
    PlainJoin("o=k6load 0 " + Itoa(sessVer) + " IN IP4 ", ip);
    PlainJoin("c=IN IP4 ", ip);
    PlainJoin("m=audio ", Itoa(port));
    PlainJoin("m=audio " + Itoa(port), " RTP/AVP ");
    PlainJoin("m=audio " + Itoa(port) + " RTP/AVP ", Itoa(pt));
    PlainJoin("a=rtpmap:", Itoa(pt));
    PlainJoin("a=rtpmap:" + Itoa(pt), " ");
    PlainJoin("a=rtpmap:" + Itoa(pt) + " ", CodecName(pt));
    PlainJoin("a=rtpmap:" + Itoa(pt) + " " + CodecName(pt), "/");
    PlainJoin("a=rtpmap:" + Itoa(pt) + " " + CodecName(pt) + "/", Rate(pt));
    PlainJoin("a=", direction);
  }

  lemma PlainNumbers(port: int64, pt: u8, sessVer: u64)
    ensures Plain(Itoa(port)) && Plain(Itoa(pt)) && Plain(Itoa(sessVer))
  {
    ItoaPlain(port);
    ItoaPlain(pt);
    ItoaPlain(sessVer);
  }

  /**
   * A printed description parses back to the address, the port and exactly the advertised payload type, its codec name
   * in upper case, next to the two static defaults.
   */
  lemma RoundTrip(ip: string, port: int64, pt: u8, direction: string, sessVer: u64)
    requires Spaceless(ip) && IsDirection(direction)
    ensures Parsed(BuildSDP(ip, port, pt, direction, sessVer)) ==
            WithDefaults(Media(ip, port, map[pt := ToUpper(CodecName(pt))]))
  {
    hide SdpLines, ParseLines, Text, CodecName, ToUpper, WithDefaults, IsDirection, Spaceless;
    LineEndsDoNotMatter(BuildSDP(ip, port, pt, direction, sessVer));
    var l := SdpLines(ip, port, pt, direction, sessVer);
    LinesPlain(ip, port, pt, direction, sessVer);
    TextParses(NOTHING, l);
    LinesParse(ip, port, pt, direction, sessVer);
  }

  lemma UpperNames()
    ensures ToUpper("PCMU") == "PCMU" && ToUpper("PCMA") == "PCMA" && ToUpper("G722") == "G722"
    ensures ToUpper("G729") == "G729" && ToUpper("opus") == "OPUS"
  {}

  /** What each advertised payload type is mapped to on the other side; unknown types count as PCMU. */
  lemma AdvertisedNames(ip: string, port: int64, pt: u8, direction: string, sessVer: u64)
    requires Spaceless(ip) && IsDirection(direction)
    ensures var ptMap := Parsed(BuildSDP(ip, port, pt, direction, sessVer)).ptMap;
      && (pt == 0 || pt == 8 ==> ptMap == map[0 := "PCMU", 8 := "PCMA"])
      && (pt == 9 ==> ptMap == map[0 := "PCMU", 8 := "PCMA", 9 := "G722"])
      && (pt == 18 ==> ptMap == map[0 := "PCMU", 8 := "PCMA", 18 := "G729"])
      && (pt == 111 ==> ptMap == map[0 := "PCMU", 8 := "PCMA", 111 := "OPUS"])
      && (pt !in {0, 8, 9, 18, 111} ==> ptMap == map[0 := "PCMU", 8 := "PCMA", pt := "PCMU"])
  {
    hide Parsed, BuildSDP, ToUpper, Spaceless, IsDirection;
    RoundTrip(ip, port, pt, direction, sessVer);
    UpperNames();
  }

  lemma SmallNumbers()
    ensures Itoa(0) == "0" && Itoa(8) == "8" && Itoa(9) == "9" && Itoa(18) == "18" && Itoa(111) == "111"
  {
    assert Decimal(1) == "1" && Decimal(11) == "11";
  }

  lemma RtpmapTexts()
    ensures "a=rtpmap:" + Itoa(0) + " " + CodecName(0) + "/" + Rate(0) == "a=rtpmap:0 PCMU/8000"
    ensures "a=rtpmap:" + Itoa(8) + " " + CodecName(8) + "/" + Rate(8) == "a=rtpmap:8 PCMA/8000"
    ensures "a=rtpmap:" + Itoa(9) + " " + CodecName(9) + "/" + Rate(9) == "a=rtpmap:9 G722/8000"
  {
    hide Itoa;
    SmallNumbers();
  }

  lemma MoreRtpmapTexts()
    ensures "a=rtpmap:" + Itoa(18) + " " + CodecName(18) + "/" + Rate(18) == "a=rtpmap:18 G729/8000"
    ensures "a=rtpmap:" + Itoa(111) + " " + CodecName(111) + "/" + Rate(111) == "a=rtpmap:111 opus/48000/2"
  {
    hide Itoa;
    SmallNumbers();
  }

  lemma RtpmapIsLine6(ip: string, port: int, pt: u8, direction: string, sessVer: u64)
    ensures SdpLines(ip, port, pt, direction, sessVer)[6]
         == "a=rtpmap:" + Itoa(pt) + " " + CodecName(pt) + "/" + Rate(pt)
  {
    hide Itoa, CodecName, Rate;
  }

  /** The rtpmap line of each known codec; Opus carries its clock rate and channel count (section 7 of RFC 7587). */
  lemma RtpmapText(ip: string, port: int, pt: u8, direction: string, sessVer: u64)
    ensures var line := SdpLines(ip, port, pt, direction, sessVer)[6];
      && (pt == 0 ==> line == "a=rtpmap:0 PCMU/8000")
      && (pt == 8 ==> line == "a=rtpmap:8 PCMA/8000")
      && (pt == 9 ==> line == "a=rtpmap:9 G722/8000")
      && (pt == 18 ==> line == "a=rtpmap:18 G729/8000")
      && (pt == 111 ==> line == "a=rtpmap:111 opus/48000/2")
  {
    hide *;
    RtpmapIsLine6(ip, port, pt, direction, sessVer);
    RtpmapTexts();
    MoreRtpmapTexts();
  }

  lemma {:induction false} TextSplits(lines: seq<string>)
    requires forall i :: 0 <= i < |lines| ==> Plain(lines[i])
    ensures var parts := Split(Text(lines), '\n');
      && |parts| == |lines| + 1 && parts[|lines|] == ""
      && forall i :: 0 <= i < |lines| ==> parts[i] == lines[i] + "\r"
  {
    if lines != [] {
      hide Split;
      var (l, rest) := (lines[0], Text(lines[1..]));
      TextSplits(lines[1..]);
      assert Text(lines) == (l + "\r") + ['\n'] + rest;
      SplitAt(l + "\r", '\n', rest);
    }
  }

  /** The printed lines in the order section 5 of RFC 4566 prescribes; the last one carries the direction. */
  lemma PrintedLines(ip: string, port: int64, pt: u8, direction: string, sessVer: u64)
    requires Spaceless(ip) && IsDirection(direction)
    ensures var parts := Split(BuildSDP(ip, port, pt, direction, sessVer), '\n');
      && |parts| == 10 && parts[9] == "" && parts[0] == "v=0\r" && parts[8] == "a=" + direction + "\r"
      && parts[1] == "o=k6load 0 " + Itoa(sessVer) + " IN IP4 " + ip + "\r" && parts[4] == "t=0 0\r"
      && parts[2] == "s=xk6-sip-media load test\r" && parts[7] == "a=ptime:20\r"
      && parts[3] == "c=IN IP4 " + ip + "\r" && parts[5] == "m=audio " + Itoa(port) + " RTP/AVP " + Itoa(pt) + "\r"
      && forall i :: 0 <= i < 9 ==> |parts[i]| > 2 && parts[i][0] == "vosctmaaa"[i] && parts[i][1] == '='
  {
    hide Split, Text, Itoa, CodecName, Rate, Spaceless, IsDirection, Plain;
    var l := SdpLines(ip, port, pt, direction, sessVer);
    LinesPlain(ip, port, pt, direction, sessVer);
    TextSplits(l);
    LineTypes(ip, port, pt, direction, sessVer);
    forall i | 0 <= i < 9
      ensures (l[i] + "\r")[0] == "vosctmaaa"[i] && (l[i] + "\r")[1] == '=' && |l[i] + "\r"| > 2
    {
      assert LineType(l[i], "vosctmaaa"[i]);
    }
  }

  predicate LineType(line: string, c: char) { |line| >= 2 && line[0] == c && line[1] == '=' }

  lemma LineTypes(ip: string, port: int64, pt: u8, direction: string, sessVer: u64)
    ensures forall i :: 0 <= i < 9 ==> LineType(SdpLines(ip, port, pt, direction, sessVer)[i], "vosctmaaa"[i])
  {
    hide Itoa, CodecName, Rate;
    var l := SdpLines(ip, port, pt, direction, sessVer);
    assert LineType(l[0], 'v') && LineType(l[1], 'o') && LineType(l[2], 's') && LineType(l[3], 'c');
    assert LineType(l[4], 't') && LineType(l[5], 'm');
    assert LineType(l[6], 'a') && LineType(l[7], 'a') && LineType(l[8], 'a');
  }

  // ---- bodies from elsewhere ----

  /** White space in front of a line makes no difference. */
  lemma IndentDoesNotMatter(m: Media, line: string)
    ensures ParseLine(m, " " + line) == ParseLine(m, line) == ParseLine(m, "\t" + line)
  {
    hide TrimRight, ParseConnection, ParseAudio, ParseRtpmap;
    assert (" " + line)[1..] == line && ("\t" + line)[1..] == line;
  }

  /** Of two connection lines the later one counts, so a media-level address overrides that of the session. */
  lemma LastConnectionWins(m: Media, first: string, second: string)
    requires Spaceless(first) && Spaceless(second) && first != "" && second != ""
    ensures ParseLines(m, ["c=IN IP4 " + first, "c=IN IP4 " + second]) == m.(ip := second)
  {
    hide ParseLine, ParseLines;
    var lines := ["c=IN IP4 " + first, "c=IN IP4 " + second];
    ConnectionLine(m, first);
    ConnectionLine(m.(ip := first), second);
    Unfold(m, lines, 0);
    Unfold(m.(ip := first), lines, 1);
    ParseNothing(m.(ip := second));
    assert lines[0..] == lines && lines[2..] == [];
  }

  /** The defaults only fill gaps: what a body maps itself stays, and nothing but types 0 and 8 is added. */
  lemma DefaultsFillGaps(m: Media)
    ensures var d := WithDefaults(m);
      && d.ip == m.ip && d.port == m.port && d.ptMap.Keys == m.ptMap.Keys + {0, 8}
      && (forall pt :: pt in m.ptMap ==> d.ptMap[pt] == m.ptMap[pt])
      && (0 !in m.ptMap ==> d.ptMap[0] == "PCMU") && (8 !in m.ptMap ==> d.ptMap[8] == "PCMA")
  {}

  /** Media other than audio, and addresses other than IPv4 ones, are passed over. */
  lemma OtherMediaIgnored(m: Media, line: string)
    requires |line| > 8 && !IsSpace(line[0]) && !IsSpace(line[|line| - 1])
    requires (line[0] == 'm' && line[..8] != "m=audio ") || (line[0] == 'c' && line[..9] != "c=IN IP4 ")
    ensures ParseLine(m, line) == m
  {
    hide Fields, Atoi, TrimSpace;
    TrimNothing(line);
    assert "a=rtpmap:"[0] == 'a' && "c=IN IP4 "[0] == 'c' && "m=audio "[0] == 'm';
  }

  /** A media line whose port is no number leaves everything as it was. */
  lemma BadPortIgnored(m: Media, word: string)
    requires word != "" && Spaceless(word) && Atoi(word).None?
    ensures ParseLine(m, "m=audio " + word) == m
  {
    hide Atoi, Fields, TrimSpace;
    var line := "m=audio " + word;
    assert line[|line| - 1] == word[|word| - 1];
    TrimNothing(line);
    FieldsLast(word);
    FieldsBlank(word);
    FieldsWord("m=audio", " " + word);
    assert "m=audio" + (" " + word) == line;
    assert "a=rtpmap:"[0] == 'a' && "c=IN IP4 "[0] == 'c' && line[0] == 'm';
  }

  lemma {:induction false} AddressIsOneWord(m: Media, lines: seq<string>)
    requires Spaceless(m.ip)
    ensures Spaceless(ParseLines(m, lines).ip)
    decreases lines
  {
    hide Fields, TrimSpace, Atoi, SplitTwo, ToUpper, Spaceless;
    if lines != [] {
      var line := TrimSpace(lines[0]);
      if |Fields(line)| >= 3 {
        FieldsSpaceless(line, 2);
      }
      AddressIsOneWord(ParseLine(m, lines[0]), lines[1..]);
    }
  }

  /** Whatever the body, the address found holds no white space and the two static payload types are mapped. */
  lemma ParsedIsUsable(body: string)
    ensures Spaceless(Parsed(body).ip) && 0 in Parsed(body).ptMap && 8 in Parsed(body).ptMap
  {
    hide ParseLines, Split, ReplaceCRLF;
    AddressIsOneWord(NOTHING, Split(ReplaceCRLF(body), '\n'));
  }

  /** The address survives the round trip exactly when it holds no white space. */
  lemma AddressSurvivesIff(ip: string, port: int64, pt: u8, direction: string, sessVer: u64)
    requires IsDirection(direction)
    ensures Parsed(BuildSDP(ip, port, pt, direction, sessVer)).ip == ip <==> Spaceless(ip)
  {
    hide Parsed, BuildSDP, Spaceless;
    ParsedIsUsable(BuildSDP(ip, port, pt, direction, sessVer));
    if Spaceless(ip) {
      RoundTrip(ip, port, pt, direction, sessVer);
    }
  }

  /** Whatever body came in, describing its address and port anew and parsing that gives the same address and port. */
  lemma ReofferKeepsAddress(body: string, pt: u8, direction: string, sessVer: u64)
    requires IsDirection(direction)
    ensures var m := Parsed(body); var again := Parsed(BuildSDP(m.ip, m.port, pt, direction, sessVer));
      again.ip == m.ip && again.port == m.port
  {
    hide Parsed, BuildSDP, Spaceless;
    ParsedIsUsable(body);
    RoundTrip(Parsed(body).ip, Parsed(body).port, pt, direction, sessVer);
  }
}
