/** internal/registry/distribution/auth.go: the parser of WWW-Authenticate Bearer challenges. */
module Challenges {
  import opened Prelude
  import opened Text

  datatype Challenge = Challenge(realm: string, service: string, scope: string)

  const NO_CHALLENGE := Challenge("", "", "")

  // ------------------------------------------------------- splitting parameters

  /** The local variables of the splitting loop. */
  datatype Scan = Scan(parts: seq<string>, cur: string, inQuotes: bool) {
    function Read(c: char): Scan
    {
      if c == '"' then Scan(parts, cur + [c], !inQuotes)
      else if c == ',' && !inQuotes then Scan(parts + [cur], "", inQuotes)
      else Scan(parts, cur + [c], inQuotes)
    }

    function Finish(): seq<string>
    {
      if cur != "" then parts + [cur] else parts
    }
  }

  const START := Scan([], "", false)

  function Run(st: Scan, text: string): Scan
    decreases |text|
  {
    if text == "" then st else Run(st.Read(text[0]), text[1..])
  }

  function ParamsOf(s: string): seq<string>
  {
    Run(START, s).Finish()
  }

  method SplitChallengeParams(s: string) returns (parts: seq<string>)
    ensures parts == ParamsOf(s)
  {
    parts := [];
    var cur := "";
    var inQuotes := false;
    for i := 0 to |s|
      invariant Run(START, s) == Run(Scan(parts, cur, inQuotes), s[i..])
    {
      var r := s[i];
      assert s[i..][1..] == s[i + 1..];
      if r == '"' {
        inQuotes := !inQuotes;
        cur := cur + [r];
      } else if r == ',' {
        if inQuotes {
          cur := cur + [r];
        } else {
          parts := parts + [cur];
          cur := "";
        }
      } else {
        cur := cur + [r];
      }
    }
    if |cur| > 0 {
      parts := parts + [cur];
    }
  }

  function QuoteCount(s: string): nat
  {
    if s == "" then 0 else (if s[0] == '"' then 1 else 0) + QuoteCount(s[1..])
  }

  lemma {:induction false} QuoteCountAppend(a: string, b: string)
    ensures QuoteCount(a + b) == QuoteCount(a) + QuoteCount(b)
  {
    if a == "" {
      assert a + b == b;
    } else {
      assert (a + b)[1..] == a[1..] + b;
      QuoteCountAppend(a[1..], b);
    }
  }

  lemma {:induction false} RunConcat(st: Scan, a: string, b: string)
    ensures Run(st, a + b) == Run(Run(st, a), b)
    decreases |a|
  {
    if a == "" {
      assert a + b == b;
    } else {
      assert (a + b)[1..] == a[1..] + b;
      RunConcat(st.Read(a[0]), a[1..], b);
    }
  }

  /** The scan keeps every character: parts and remainder, rejoined, are what was read. */
  lemma {:induction false} RunKeepsText(st: Scan, text: string)
    ensures Join(Run(st, text).parts + [Run(st, text).cur], ',') == Join(st.parts + [st.cur], ',') + text
    ensures Run(st, text).inQuotes == (st.inQuotes != (QuoteCount(text) % 2 == 1))
    decreases |text|
  {
    if text == "" {
      assert Join(st.parts + [st.cur], ',') + text == Join(st.parts + [st.cur], ',');
    } else {
      var next := st.Read(text[0]);
      ReadKeepsText(st, text[0]);
      RunKeepsText(next, text[1..]);
      assert text == [text[0]] + text[1..];
    }
  }

  lemma ReadKeepsText(st: Scan, c: char)
    ensures Join(st.Read(c).parts + [st.Read(c).cur], ',') == Join(st.parts + [st.cur], ',') + [c]
  {
    var next := st.Read(c);
    JoinAppend(st.parts, st.cur, ',');
    JoinAppend(next.parts, next.cur, ',');
    if c == ',' && !st.inQuotes {
      assert Join(next.parts, ',') + [','] + "" == Join(next.parts, ',') + [','];
    }
  }

  /** The separators dropped are commas outside quotes; a final one is the only text that is lost. */
  predicate EndsWithSeparator(s: string)
  {
    s != "" && s[|s| - 1] == ',' && QuoteCount(s) % 2 == 0
  }

  /** Joining the parameters with commas restores the text, up to one trailing separator. */
  lemma ParamsJoinBack(s: string)
    ensures s == Join(ParamsOf(s), ',') + if EndsWithSeparator(s) then "," else ""
  {
    var st := Run(START, s);
    RunKeepsText(START, s);
    JoinAppend(st.parts, st.cur, ',');
    assert Join(START.parts + [START.cur], ',') == "";
    LastRead(s);
    if st.cur == "" && st.parts != [] {
      assert Join(st.parts, ',') + [','] + "" == Join(st.parts, ',') + ",";
    }
  }

  lemma LastRead(s: string)
    ensures Run(START, s).cur == "" && s != "" <==> EndsWithSeparator(s)
    ensures s == "" <==> Run(START, s).cur == "" && Run(START, s).parts == []
  {
    if s != "" {
      var front, last := s[..|s| - 1], s[|s| - 1];
      assert s == front + [last];
      RunConcat(START, front, [last]);
      RunKeepsText(START, front);
      QuoteCountAppend(front, [last]);
      assert Run(Run(START, front), [last]) == Run(START, front).Read(last);
    }
  }

  /** Every comma of the part is inside quotes. */
  ghost predicate NoBareComma(part: string)
  {
    forall i | 0 <= i < |part| && part[i] == ',' :: QuoteCount(part[..i]) % 2 == 1
  }

  /** The parts were cut outside quotes, and nothing in them or in the rest is left to cut. */
  ghost predicate IsCut(parts: seq<string>, rest: string)
  {
    && (forall k | 0 <= k < |parts| :: NoBareComma(parts[k]) && QuoteCount(parts[k]) % 2 == 0)
    && NoBareComma(rest)
  }

  lemma QuoteCountOne(c: char)
    ensures QuoteCount([c]) == if c == '"' then 1 else 0
  {
    assert [c][1..] == "";
  }

  lemma NoBareCommaAppend(part: string, c: char)
    requires NoBareComma(part) && (c == ',' ==> QuoteCount(part) % 2 == 1)
    ensures NoBareComma(part + [c])
  {
    var all := part + [c];
    assert all[..|part|] == part && forall i | 0 <= i < |part| :: all[..i] == part[..i];
  }

  lemma {:induction false} RunCuts(st: Scan, text: string)
    requires IsCut(st.parts, st.cur) && st.inQuotes == (QuoteCount(st.cur) % 2 == 1)
    ensures
      var end := Run(st, text);
      IsCut(end.parts, end.cur) && end.inQuotes == (QuoteCount(end.cur) % 2 == 1)
    decreases |text|
  {
    if text != "" {
      var c := text[0];
      QuoteCountAppend(st.cur, [c]);
      QuoteCountOne(c);
      if c != ',' || st.inQuotes {
        NoBareCommaAppend(st.cur, c);
      }
      RunCuts(st.Read(c), text[1..]);
    }
  }

  /** The text is cut at commas outside quotes only, and at every one of them. */
  lemma ParamsAreCut(s: string)
    ensures forall k | 0 <= k < |ParamsOf(s)| :: NoBareComma(ParamsOf(s)[k])
    ensures forall k | 0 <= k < |ParamsOf(s)| - 1 :: QuoteCount(ParamsOf(s)[k]) % 2 == 0
  {
    hide Run, NoBareComma, QuoteCount;
    StartIsCut();
    RunCuts(START, s);
  }

  lemma StartIsCut()
    ensures IsCut(START.parts, START.cur) && QuoteCount(START.cur) == 0
  {
  }

  lemma {:induction false} RunPart(parts: seq<string>, part: string)
    requires NoBareComma(part)
    ensures Run(Scan(parts, "", false), part) == Scan(parts, part, QuoteCount(part) % 2 == 1)
  {
    if part != "" {
      var front, c := part[..|part| - 1], part[|part| - 1];
      assert part == front + [c];
      assert forall i | 0 <= i < |front| :: front[..i] == part[..i];
      RunPart(parts, front);
      RunConcat(Scan(parts, "", false), front, [c]);
      QuoteCountAppend(front, [c]);
      QuoteCountOne(c);
      assert Run(Scan(parts, front, QuoteCount(front) % 2 == 1), [c]) == Scan(parts, front, QuoteCount(front) % 2 == 1).Read(c);
    }
  }

  lemma {:induction false} RunCutParts(before: seq<string>, parts: seq<string>, rest: string)
    requires IsCut(parts, rest)
    ensures Run(Scan(before, "", false), Join(parts + [rest], ',')) == Scan(before + parts, rest, QuoteCount(rest) % 2 == 1)
    decreases |parts|
  {
    hide Run, NoBareComma, QuoteCount;
    if parts == [] {
      assert parts + [rest] == [rest] && before + parts == before;
      RunPart(before, rest);
    } else {
      var st, tail := Scan(before, "", false), parts[1..];
      assert parts + [rest] == [parts[0]] + (tail + [rest]);
      JoinCons(parts[0], tail + [rest], ',');
      RunConcat(st, parts[0] + [','], Join(tail + [rest], ','));
      RunConcat(st, parts[0], [',']);
      RunPart(before, parts[0]);
      RunSeparator(Scan(before, parts[0], false));
      RunCutParts(before + [parts[0]], tail, rest);
      assert before + [parts[0]] + tail == before + parts;
    }
  }

  /** There is only one such cut: whatever parts and rest a text was joined from, they are what splitting returns. */
  lemma OnlyCut(parts: seq<string>, rest: string)
    requires IsCut(parts, rest)
    ensures ParamsOf(Join(parts + [rest], ',')) == if rest == "" then parts else parts + [rest]
  {
    hide Run, NoBareComma, QuoteCount;
    RunCutParts([], parts, rest);
    assert [] + parts == parts;
  }

  // ------------------------------------------------------------------ trimming

  /** unicode.IsSpace */
  predicate IsSpace(c: char)
  {
    || '\U{9}' <= c <= '\U{d}' || c == ' ' || c == '\U{85}' || c == '\U{a0}' || c == '\U{1680}'
    || '\U{2000}' <= c <= '\U{200a}' || c == '\U{2028}' || c == '\U{2029}' || c == '\U{202f}'
    || c == '\U{205f}' || c == '\U{3000}'
  }

  function TrimSpace(s: string): string
  {
    if s == "" then ""
    else if IsSpace(s[0]) then TrimSpace(s[1..])
    else if IsSpace(s[|s| - 1]) then TrimSpace(s[..|s| - 1])
    else s
  }

  function TrimQuotes(s: string): string
  {
    if s == "" then ""
    else if s[0] == '"' then TrimQuotes(s[1..])
    else if s[|s| - 1] == '"' then TrimQuotes(s[..|s| - 1])
    else s
  }

  // ------------------------------------------------------------------- parsing

  function Assign(c: Challenge, key: string, val: string): Challenge
  {
    if key == "realm" then c.(realm := val)
    else if key == "service" then c.(service := val)
    else if key == "scope" then c.(scope := val)
    else c
  }

  /** One part of the header; a part without '=' is skipped. */
  function ApplyPart(c: Challenge, part: string): Challenge
  {
    var i := IndexOf(part, '=');
    if i == |part| then c
    else Assign(c, TrimSpace(part[..i]), TrimQuotes(TrimSpace(part[i + 1..])))
  }

  function ApplyParts(c: Challenge, parts: seq<string>): Challenge
    decreases |parts|
  {
    if parts == [] then c else ApplyParts(ApplyPart(c, parts[0]), parts[1..])
  }

  function Parsed(header: string): Option<Challenge>
  {
    if !("Bearer " <= header) then None
    else
      var c := ApplyParts(NO_CHALLENGE, ParamsOf(header[|"Bearer "|..]));
      if c.realm == "" then None else Some(c)
  }

  method ParseBearerChallenge(header: string) returns (r: Option<Challenge>)
    ensures r == Parsed(header)
  {
    if !("Bearer " <= header) {
      return None;
    }
    var rest := TrimPrefix(header, "Bearer ");
    var c := NO_CHALLENGE;
    var parts := SplitChallengeParams(rest);
    for i := 0 to |parts|
      invariant ApplyParts(NO_CHALLENGE, parts) == ApplyParts(c, parts[i..])
    {
      var part := parts[i];
      assert parts[i..][1..] == parts[i + 1..];
      var eq := IndexOf(part, '=');
      if eq == |part| {
        continue;
      }
      var key := TrimSpace(part[..eq]);
      var val := TrimQuotes(TrimSpace(part[eq + 1..]));
      match key {
        case "realm" => c := c.(realm := val);
        case "service" => c := c.(service := val);
        case "scope" => c := c.(scope := val);
        case _ =>
      }
    }
    if c.realm == "" {
      return None;
    }
    return Some(c);
  }

  // ---------------------------------------------------------------- round trip

  /** A parameter as section 11.6.1 of RFC 9110 writes it: optional whitespace, key="value". */
  datatype Param = Param(padding: string, key: string, value: string) {
    predicate Valid()
    {
      && (forall i | 0 <= i < |padding| :: IsSpace(padding[i]))
      && '=' !in key && ',' !in key && '"' !in key
      && (key != "" ==> !IsSpace(key[0]) && !IsSpace(key[|key| - 1]))
      && '"' !in value
    }

    function Print(): string
    {
      padding + key + "=" + Quoted(value)
    }
  }

  function Quoted(value: string): string
  {
    "\"" + value + "\""
  }

  function Prints(ps: seq<Param>): (texts: seq<string>)
    ensures |texts| == |ps|
    ensures forall i | 0 <= i < |ps| :: texts[i] == ps[i].Print()
  {
    seq(|ps|, i requires 0 <= i < |ps| => ps[i].Print())
  }

  function PrintHeader(ps: seq<Param>): string
  {
    "Bearer " + Join(Prints(ps), ',')
  }

  /** The challenge a parameter list spells out: for each known key the last value given. */
  function Meaning(c: Challenge, ps: seq<Param>): Challenge
    decreases |ps|
  {
    if ps == [] then c else Meaning(Assign(c, ps[0].key, ps[0].value), ps[1..])
  }

  lemma {:induction false} RunPlain(st: Scan, text: string)
    requires '"' !in text && (st.inQuotes || ',' !in text)
    ensures Run(st, text) == Scan(st.parts, st.cur + text, st.inQuotes)
    decreases |text|
  {
    if text == "" {
      assert st.cur + text == st.cur;
    } else {
      RunPlain(st.Read(text[0]), text[1..]);
      assert st.cur + [text[0]] + text[1..] == st.cur + text;
    }
  }

  lemma RunQuoted(st: Scan, value: string)
    requires !st.inQuotes && '"' !in value
    ensures Run(st, Quoted(value)) == Scan(st.parts, st.cur + Quoted(value), false)
  {
    var inside := Scan(st.parts, st.cur + "\"", true);
    assert Quoted(value) == "\"" + (value + "\"");
    RunConcat(st, "\"", value + "\"");
    assert Run(st, "\"") == inside;
    RunConcat(inside, value, "\"");
    RunPlain(inside, value);
    assert inside.cur + value + "\"" == st.cur + Quoted(value);
  }

  lemma RunParam(st: Scan, p: Param)
    requires !st.inQuotes && p.Valid()
    ensures Run(st, p.Print()) == Scan(st.parts, st.cur + p.Print(), false)
  {
    hide Run, Quoted;
    var head := p.padding + p.key + "=";
    assert p.Print() == head + Quoted(p.value);
    forall c | c in p.padding ensures c != ',' && c != '"' {
      var i :| 0 <= i < |p.padding| && p.padding[i] == c;
    }
    RunConcat(st, head, Quoted(p.value));
    RunPlain(st, head);
    RunQuoted(Run(st, head), p.value);
    assert st.cur + head + Quoted(p.value) == st.cur + p.Print();
  }

  lemma RunNothing(st: Scan)
    ensures Run(st, "") == st
  {
  }

  lemma RunSeparator(st: Scan)
    requires !st.inQuotes
    ensures Run(st, [',']) == Scan(st.parts + [st.cur], "", false)
  {
  }

  lemma ParamIsNotEmpty(p: Param)
    ensures p.Print() != ""
  {
  }

  /** Splitting the printed parameters gives the printed parameters, whatever commas the values contain. */
  lemma {:induction false} RunParams(parts: seq<string>, ps: seq<Param>)
    requires forall i | 0 <= i < |ps| :: ps[i].Valid()
    ensures Run(Scan(parts, "", false), Join(Prints(ps), ',')).Finish() == parts + Prints(ps)
    decreases |ps|
  {
    hide Run, Param.Print, Param.Valid;
    var st, texts := Scan(parts, "", false), Prints(ps);
    if ps == [] {
      RunNothing(st);
    } else {
      RunParam(st, ps[0]);
      assert st.cur + texts[0] == texts[0];
      var first := Scan(parts, texts[0], false);
      ParamIsNotEmpty(ps[0]);
      if |ps| == 1 {
        assert texts == [texts[0]];
      } else {
        var tail := ps[1..];
        assert Prints(tail) == texts[1..];
        RunConcat(st, texts[0] + [','], Join(texts[1..], ','));
        RunConcat(st, texts[0], [',']);
        RunSeparator(first);
        RunParams(parts + [texts[0]], tail);
        assert parts + [texts[0]] + texts[1..] == parts + texts;
      }
    }
  }

  lemma {:induction false} TrimSpacePadded(padding: string, key: string)
    requires forall i | 0 <= i < |padding| :: IsSpace(padding[i])
    requires key != "" ==> !IsSpace(key[0]) && !IsSpace(key[|key| - 1])
    ensures TrimSpace(padding + key) == key
  {
    if padding == "" {
      assert padding + key == key;
    } else {
      assert (padding + key)[1..] == padding[1..] + key;
      TrimSpacePadded(padding[1..], key);
    }
  }

  lemma TrimQuoted(value: string)
    requires '"' !in value
    ensures TrimSpace(Quoted(value)) == Quoted(value) && TrimQuotes(Quoted(value)) == value
  {
    var text, tail := Quoted(value), value + "\"";
    assert text[1..] == tail;
    assert tail[..|tail| - 1] == value;
    if value != "" {
      assert value[0] in value && value[|value| - 1] in value;
      assert TrimQuotes(value) == value && TrimQuotes(tail) == value;
    } else {
      assert tail == "\"" && tail[1..] == "";
      assert TrimQuotes(tail) == "";
    }
  }

  lemma PartMeansParam(c: Challenge, p: Param)
    requires p.Valid()
    ensures ApplyPart(c, p.Print()) == Assign(c, p.key, p.value)
  {
    var part, head := p.Print(), p.padding + p.key;
    forall k | 0 <= k < |head| ensures head[k] != '=' {
      assert k >= |p.padding| ==> head[k] == p.key[k - |p.padding|] && head[k] in p.key;
    }
    assert part == head + "=" + Quoted(p.value);
    assert part[|head|] == '=' && forall k | 0 <= k < |head| :: part[k] == head[k];
    assert IndexOf(part, '=') == |head|;
    assert part[..|head|] == head && part[|head| + 1..] == Quoted(p.value);
    TrimSpacePadded(p.padding, p.key);
    TrimQuoted(p.value);
  }

  lemma {:induction false} PartsMeanParams(c: Challenge, ps: seq<Param>)
    requires forall i | 0 <= i < |ps| :: ps[i].Valid()
    ensures ApplyParts(c, Prints(ps)) == Meaning(c, ps)
    decreases |ps|
  {
    if ps != [] {
      PartMeansParam(c, ps[0]);
      assert Prints(ps)[1..] == Prints(ps[1..]);
      PartsMeanParams(Assign(c, ps[0].key, ps[0].value), ps[1..]);
    }
  }

  /**
    Any list of well-formed quoted parameters, with any padding, order, unknown keys and repetitions,
    parses to what it spells out, and is refused exactly when that names no realm.
  */
  lemma PrintedHeaderParses(ps: seq<Param>)
    requires forall i | 0 <= i < |ps| :: ps[i].Valid()
    ensures Parsed(PrintHeader(ps)) ==
      if Meaning(NO_CHALLENGE, ps).realm == "" then None else Some(Meaning(NO_CHALLENGE, ps))
  {
    var header := PrintHeader(ps);
    assert header[|"Bearer "|..] == Join(Prints(ps), ',');
    RunParams([], ps);
    assert [] + Prints(ps) == Prints(ps);
    PartsMeanParams(NO_CHALLENGE, ps);
  }

  /** Round trip: a challenge printed as its three parameters, in any order, parses to itself. */
  lemma ChallengeParsesBackInAnyOrder(c: Challenge, ps: seq<Param>)
    requires c.realm != "" && '"' !in c.realm && '"' !in c.service && '"' !in c.scope
    requires |ps| == 3 && forall i | 0 <= i < 3 :: ps[i].Valid()
    requires {ps[0].key, ps[1].key, ps[2].key} == {"realm", "service", "scope"}
    requires forall i | 0 <= i < 3 ::
      ps[i].value == if ps[i].key == "realm" then c.realm else if ps[i].key == "service" then c.service else c.scope
    ensures Parsed(PrintHeader(ps)) == Some(c)
  {
    PrintedHeaderParses(ps);
    ThreeParamsMean(c, ps);
  }

  lemma ThreeParamsMean(c: Challenge, ps: seq<Param>)
    requires |ps| == 3 && {ps[0].key, ps[1].key, ps[2].key} == {"realm", "service", "scope"}
    requires forall i | 0 <= i < 3 ::
      ps[i].value == if ps[i].key == "realm" then c.realm else if ps[i].key == "service" then c.service else c.scope
    ensures Meaning(NO_CHALLENGE, ps) == c
  {
    var keys := {ps[0].key, ps[1].key, ps[2].key};
    assert "realm" in keys && "service" in keys && "scope" in keys;
    assert ps[0].key in keys && ps[1].key in keys && ps[2].key in keys;
    var c1 := Assign(NO_CHALLENGE, ps[0].key, ps[0].value);
    var c2 := Assign(c1, ps[1].key, ps[1].value);
    var c3 := Assign(c2, ps[2].key, ps[2].value);
    assert ps[1..][1..] == ps[2..] && ps[2..][1..] == [];
    assert Meaning(c2, ps[2..]) == c3;
    assert Meaning(c1, ps[1..]) == c3;
  }

  // --------------------------------------------------------- the scheme's name

  function LowerChar(c: char): char
  {
    if 'A' <= c <= 'Z' then (c as int + 32) as char else c
  }

  function Lower(s: string): (l: string)
    ensures |l| == |s|
    ensures forall i | 0 <= i < |s| :: l[i] == LowerChar(s[i])
  {
    seq(|s|, i requires 0 <= i < |s| => LowerChar(s[i]))
  }

  const SCHEME := "Bearer"

  /** A header of the Bearer scheme, whose name is case-insensitive by section 11.1 of RFC 9110. */
  predicate HasBearerScheme(header: string)
  {
    |header| > |SCHEME| && header[|SCHEME|] == ' ' && Lower(header[..|SCHEME|]) == Lower(SCHEME)
  }

  /** The header with its scheme spelled the canonical way. */
  function Respelled(header: string): string
    requires HasBearerScheme(header)
  {
    SCHEME + header[|SCHEME|..]
  }

  /**
    A header of the Bearer scheme is accepted exactly when the scheme's name is spelled the canonical way and
    some realm is named; so the spelling decides over every challenge that is acceptable at all.
  */
  lemma SchemeSpellingDecides(header: string)
    requires HasBearerScheme(header)
    ensures Parsed(header) == if header[..|SCHEME|] == SCHEME then Parsed(Respelled(header)) else None
    ensures Parsed(header) == Parsed(Respelled(header)) <==> header[..|SCHEME|] == SCHEME || Parsed(Respelled(header)).None?
  {
    hide ParamsOf, ApplyParts, Lower;
    assert "Bearer " == SCHEME + " ";
    assert header == header[..|SCHEME|] + header[|SCHEME|..];
    if "Bearer " <= header {
      assert header[..|SCHEME|] == "Bearer "[..|SCHEME|];
    }
  }

  lemma OtherSpelling(scheme: string, rest: string)
    requires |scheme| == |SCHEME| && scheme != SCHEME && Lower(scheme) == Lower(SCHEME)
    ensures
      var header := scheme + " " + rest;
      HasBearerScheme(header) && Parsed(header) == None && Respelled(header) == "Bearer " + rest
  {
    hide ParamsOf, ApplyParts, Lower;
    var header := scheme + " " + rest;
    assert header[..|SCHEME|] == scheme && header[|SCHEME|..] == " " + rest;
    assert "Bearer " + rest == SCHEME + (" " + rest);
    SchemeSpellingDecides(header);
  }

  /** Every well-formed challenge that is accepted is refused under any other spelling of its scheme. */
  lemma OtherSpellingsAreRefused(scheme: string, ps: seq<Param>)
    requires |scheme| == |SCHEME| && scheme != SCHEME && Lower(scheme) == Lower(SCHEME)
    requires (forall i | 0 <= i < |ps| :: ps[i].Valid()) && Meaning(NO_CHALLENGE, ps).realm != ""
    ensures
      var header := scheme + " " + Join(Prints(ps), ',');
      HasBearerScheme(header) && Parsed(header) == None && Parsed(Respelled(header)) == Some(Meaning(NO_CHALLENGE, ps))
  {
    hide Join, Meaning, Parsed, Param.Valid, Lower, HasBearerScheme, Respelled;
    OtherSpelling(scheme, Join(Prints(ps), ','));
    PrintedHeaderParses(ps);
  }

  lemma LowerCaseIsAnotherSpelling()
    ensures Lower("bearer") == Lower(SCHEME) && "bearer" != SCHEME
  {
  }

  /** For instance bearer realm="x" is refused, though Bearer realm="x" names a realm. */
  lemma LowerCaseSchemeIsRefused()
    ensures Parsed("bearer realm=\"x\"") == None && Parsed("Bearer realm=\"x\"") == Some(Challenge("x", "", ""))
  {
    hide Parsed, HasBearerScheme, Respelled, Lower;
    var ps := [Param("", "realm", "x")];
    ExamplePrints();
    assert Meaning(NO_CHALLENGE, ps) == Meaning(Challenge("x", "", ""), []) == Challenge("x", "", "");
    LowerCaseIsAnotherSpelling();
    OtherSpellingsAreRefused("bearer", ps);
    PrintedHeaderParses(ps);
    assert "bearer" + " " + "realm=\"x\"" == "bearer realm=\"x\"";
  }

  lemma ExamplePrints()
    ensures
      var ps := [Param("", "realm", "x")];
      ps[0].Valid() && Join(Prints(ps), ',') == "realm=\"x\"" && PrintHeader(ps) == "Bearer realm=\"x\""
  {
    var p := Param("", "realm", "x");
    assert p.Print() == "realm=\"x\"";
    assert Prints([p]) == [p.Print()];
    assert "Bearer " + "realm=\"x\"" == "Bearer realm=\"x\"";
  }

  /** The header a registry usually sends, with a space after each comma, reads as its three parts. */
  lemma UsualHeaderParses(c: Challenge)
    requires c.realm != "" && '"' !in c.realm && '"' !in c.service && '"' !in c.scope
    ensures
      var realm, service, scope := "realm=\"" + c.realm + "\"", " service=\"" + c.service + "\"", " scope=\"" + c.scope + "\"";
      Parsed("Bearer " + (realm + "," + service + "," + scope)) == Some(c)
  {
    hide Parsed, Param.Valid, Param.Print, Join;
    var a, b, d := Param("", "realm", c.realm), Param(" ", "service", c.service), Param(" ", "scope", c.scope);
    var ps := [a, b, d];
    UsualParamsAreValid(c);
    ChallengeParsesBackInAnyOrder(c, ps);
    assert Prints(ps) == [a.Print(), b.Print(), d.Print()];
    UsualParamsPrint(c);
    JoinThree(a.Print(), b.Print(), d.Print());
  }

  lemma UsualParamsAreValid(c: Challenge)
    requires '"' !in c.realm && '"' !in c.service && '"' !in c.scope
    ensures Param("", "realm", c.realm).Valid() && Param(" ", "service", c.service).Valid() && Param(" ", "scope", c.scope).Valid()
  {
  }

  lemma UsualParamsPrint(c: Challenge)
    ensures Param("", "realm", c.realm).Print() == "realm=\"" + c.realm + "\""
    ensures Param(" ", "service", c.service).Print() == " service=\"" + c.service + "\""
    ensures Param(" ", "scope", c.scope).Print() == " scope=\"" + c.scope + "\""
  {
    PrintIs("", "realm", c.realm, "realm=\"");
    PrintIs(" ", "service", c.service, " service=\"");
    PrintIs(" ", "scope", c.scope, " scope=\"");
  }

  lemma PrintIs(padding: string, key: string, value: string, head: string)
    requires head == padding + key + "=" + "\""
    ensures Param(padding, key, value).Print() == head + value + "\""
  {
    assert padding + key + "=" + ("\"" + value + "\"") == (padding + key + "=" + "\"") + value + "\"";
  }

  lemma JoinThree(a: string, b: string, c: string)
    ensures Join([a, b, c], ',') == a + "," + b + "," + c
  {
    JoinCons(b, [c], ',');
    JoinCons(a, [b, c], ',');
    assert [b] + [c] == [b, c] && [a] + [b, c] == [a, b, c];
    assert a + [','] + (b + [','] + c) == a + "," + b + "," + c;
  }
}
