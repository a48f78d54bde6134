/**
  The lines of the rendezvous protocol as they are typed and answered: how a line falls into words,
  what the words ask for, and the text that comes back.
*/
module RendezvousLines {
  import opened Text
  import opened Rendezvous
  import Utf8

  // ---- Words

  predicate IsWord(w: string) {
    w != "" && forall i | 0 <= i < |w| :: !IsWhitespace(w[i])
  }

  /** One gap before each word and one after the last; only the outer two may be empty. */
  predicate Separates(gaps: seq<string>, words: seq<string>) {
    && |gaps| == |words| + 1
    && (forall i | 0 <= i < |words| :: IsWord(words[i]))
    && (forall i | 0 <= i < |gaps| :: AllWhitespace(gaps[i]))
    && (forall i | 0 < i < |words| :: gaps[i] != "")
  }

  function Line(gaps: seq<string>, words: seq<string>): string
    requires |gaps| == |words| + 1
  {
    if words == [] then gaps[0] else gaps[0] + words[0] + Line(gaps[1..], words[1..])
  }

  /** The line consists of these words, however they are spaced. */
  ghost predicate Spells(line: string, words: seq<string>) {
    exists gaps :: Separates(gaps, words) && line == Line(gaps, words)
  }

  lemma {:induction false} SkipBlank(blank: string, s: string)
    requires AllWhitespace(blank)
    ensures SplitWhitespace(blank + s) == SplitWhitespace(s)
  {
    if blank == "" {
      assert blank + s == s;
    } else {
      SkipBlank(blank[1..], s);
      assert (blank + s)[1..] == blank[1..] + s;
    }
  }

  lemma {:induction false} WordLengthOf(w: string, s: string)
    requires forall i | 0 <= i < |w| :: !IsWhitespace(w[i])
    requires s == "" || IsWhitespace(s[0])
    ensures WordLength(w + s) == |w|
  {
    if w == "" {
      assert w + s == s;
    } else {
      WordLengthOf(w[1..], s);
      assert (w + s)[1..] == w[1..] + s;
    }
  }

  lemma TakeWord(w: string, s: string)
    requires IsWord(w) && (s == "" || IsWhitespace(s[0]))
    ensures SplitWhitespace(w + s) == [w] + SplitWhitespace(s)
  {
    WordLengthOf(w, s);
    assert (w + s)[..|w|] == w && (w + s)[|w|..] == s;
  }

  lemma {:induction false} SplitOfLine(gaps: seq<string>, words: seq<string>)
    requires Separates(gaps, words)
    ensures SplitWhitespace(Line(gaps, words)) == words
  {
    hide IsWhitespace, SplitWhitespace;
    if words == [] {
      SkipBlank(gaps[0], "");
      assert gaps[0] + "" == gaps[0];
      NoWords();
    } else {
      var rest := Line(gaps[1..], words[1..]);
      assert rest == "" || IsWhitespace(rest[0]) by {
        if words[1..] == [] {
          assert rest == gaps[1];
        } else {
          assert rest[0] == gaps[1][0];
        }
      }
      assert Separates(gaps[1..], words[1..]);
      SplitOfLine(gaps[1..], words[1..]);
      TakeWord(words[0], rest);
      SkipBlank(gaps[0], words[0] + rest);
      assert Line(gaps, words) == gaps[0] + (words[0] + rest);
      assert words == [words[0]] + words[1..];
    }
  }

  lemma NoWords()
    ensures SplitWhitespace("") == []
  {
  }

  lemma {:induction false} WordLengthStops(s: string)
    ensures var n := WordLength(s);
      && (forall i | 0 <= i < n :: !IsWhitespace(s[i])) && (n < |s| ==> IsWhitespace(s[n]))
  {
    if s != "" && !IsWhitespace(s[0]) {
      WordLengthStops(s[1..]);
      assert forall i | 0 < i < WordLength(s) :: s[i] == s[1..][i - 1];
    }
  }

  lemma AddBlank(c: char, gaps: seq<string>, words: seq<string>)
    requires Separates(gaps, words) && IsWhitespace(c)
    ensures var wider := [[c] + gaps[0]] + gaps[1..];
      Separates(wider, words) && Line(wider, words) == [c] + Line(gaps, words)
  {
    var wider := [[c] + gaps[0]] + gaps[1..];
    assert wider[1..] == gaps[1..];
    if words != [] {
      assert [c] + gaps[0] + words[0] + Line(gaps[1..], words[1..])
          == [c] + (gaps[0] + words[0] + Line(gaps[1..], words[1..]));
    }
  }

  lemma GapComesFirst(gaps: seq<string>, words: seq<string>)
    requires Separates(gaps, words) && words != []
    ensures Line(gaps, words) != "" && (IsWhitespace(Line(gaps, words)[0]) ==> gaps[0] != "")
  {
    hide IsWhitespace;
    var rest := words[0] + Line(gaps[1..], words[1..]);
    assert Line(gaps, words) == gaps[0] + rest && rest[0] == words[0][0];
  }

  lemma AddWord(w: string, gaps: seq<string>, words: seq<string>)
    requires Separates(gaps, words) && IsWord(w)
    requires Line(gaps, words) == "" || IsWhitespace(Line(gaps, words)[0])
    ensures Separates([""] + gaps, [w] + words) && Line([""] + gaps, [w] + words) == w + Line(gaps, words)
  {
    if words != [] {
      GapComesFirst(gaps, words);
    }
    hide IsWhitespace;
    assert ([""] + gaps)[1..] == gaps && ([w] + words)[1..] == words;
    assert "" + w == w;
  }

  lemma {:induction false} LineOfSplit(s: string) returns (gaps: seq<string>)
    ensures |gaps| == |SplitWhitespace(s)| + 1
    ensures Separates(gaps, SplitWhitespace(s)) && s == Line(gaps, SplitWhitespace(s))
    decreases |s|
  {
    hide Separates, Line, IsWhitespace;
    if s == "" {
      gaps := [""];
      EmptyLine();
    } else if IsWhitespace(s[0]) {
      var others := LineOfSplit(s[1..]);
      AddBlank(s[0], others, SplitWhitespace(s[1..]));
      gaps := [[s[0]] + others[0]] + others[1..];
    } else {
      var n := WordLength(s);
      WordLengthStops(s);
      var others := LineOfSplit(s[n..]);
      AddWord(s[..n], others, SplitWhitespace(s[n..]));
      gaps := [""] + others;
      assert s == s[..n] + s[n..];
    }
  }

  lemma EmptyLine()
    ensures Separates([""], []) && Line([""], []) == ""
  {
  }

  /** Splitting a line gives exactly the words that, with whitespace between and around them, make it up. */
  lemma SplitExactly(line: string, words: seq<string>)
    ensures SplitWhitespace(line) == words <==> Spells(line, words)
  {
    if SplitWhitespace(line) == words {
      var gaps := LineOfSplit(line);
    }
    if Spells(line, words) {
      var gaps :| Separates(gaps, words) && line == Line(gaps, words);
      SplitOfLine(gaps, words);
    }
  }

  // ---- Requests

  /** What each line asks for. */
  lemma RequestsSpelled(line: string, words: seq<string>)
    requires Spells(line, words)
    ensures Understand(line) == Blank <==> words == []
    ensures forall id, endpoint :: Understand(line) == Register(id, endpoint) <==> words == ["REGISTER", id, endpoint]
    ensures forall id :: Understand(line) == Heartbeat(id) <==> words == ["HEARTBEAT", id]
    ensures forall id :: Understand(line) == Lookup(id) <==> words == ["LOOKUP", id]
    ensures Understand(line) == Ping <==> words != [] && words[0] == "PING"
  {
    SplitExactly(line, words);
    hide SplitWhitespace, Spells;
  }

  lemma DigitRanges(c: char)
    ensures c in "0123456789abcdefABCDEF" <==> '0' <= c <= '9' || 'A' <= c <= 'F' || 'a' <= c <= 'f'
  {
    DigitsWrittenOut();
    assert DigitValue(c) < 16 <==> c in "0123456789abcdefABCDEF";
  }

  /** A device id is 32 hexadecimal digits of either case. */
  lemma DeviceIdWrittenOut(id: string)
    ensures ValidDeviceId(id) <==> |id| == 32 && forall i | 0 <= i < |id| :: id[i] in "0123456789abcdefABCDEF"
  {
    var b := Utf8.Encode(id);
    Utf8.AsciiBytes(id);
    hide Utf8.Encode;
    if ValidDeviceId(id) {
      assert forall i | 0 <= i < |b| :: b[i] in b;
      assert Utf8.AsciiOctets(b);
      forall i | 0 <= i < |id|
        ensures id[i] in "0123456789abcdefABCDEF"
      {
        DigitRanges(id[i]);
      }
    }
    if |id| == 32 && forall i | 0 <= i < |id| :: id[i] in "0123456789abcdefABCDEF" {
      forall i | 0 <= i < |id|
        ensures '0' <= id[i] <= '9' || 'A' <= id[i] <= 'F' || 'a' <= id[i] <= 'f'
      {
        DigitRanges(id[i]);
      }
    }
  }

  // ---- Replies

  /** What is written to the connection; `show` prints a socket address. */
  function Written(reply: Reply, show: Endpoint -> string): string {
    match reply
    case Registered => "OK registered\n"
    case InvalidDeviceId => "ERROR invalid-device-id\n"
    case HeartbeatOk => "OK heartbeat\n"
    case NotRegistered => "ERROR not-registered\n"
    case Found(endpoint) => "FOUND " + show(endpoint) + "\n"
    case NotFound => "NOT_FOUND\n"
    case Pong => "PONG\n"
    case InvalidCommand => "ERROR invalid-command\n"
    case Silent => ""
    case HungUp => ""
  }

  function AnswerTo(parse: Parser, reg: Registry, line: string, now: nat, show: Endpoint -> string): string {
    Written(Serve(parse, reg, Understand(line), now).1, show)
  }

  /** The answer to a REGISTER line: an unreadable address ends the connection, whatever the id. */
  lemma AnswerToRegister(parse: Parser, reg: Registry, line: string, id: string, text: string, now: nat,
                         show: Endpoint -> string)
    requires Spells(line, ["REGISTER", id, text])
    ensures Serve(parse, reg, Understand(line), now).1 == HungUp <==> parse(text).None?
    ensures parse(text).Some? ==>
      AnswerTo(parse, reg, line, now, show) ==
        if |id| == 32 && forall i | 0 <= i < |id| :: id[i] in "0123456789abcdefABCDEF" then "OK registered\n"
        else "ERROR invalid-device-id\n"
  {
    RequestsSpelled(line, ["REGISTER", id, text]);
    DeviceIdWrittenOut(id);
    hide Understand, ValidDeviceId, Spells;
  }

  /** The answers to all other lines. */
  lemma OtherAnswers(parse: Parser, reg: Registry, line: string, words: seq<string>, now: nat,
                     show: Endpoint -> string)
    requires Spells(line, words) && !(|words| == 3 && words[0] == "REGISTER")
    ensures var (after, reply) := Serve(parse, reg, Understand(line), now);
      var text := Written(reply, show);
      if words == [] then text == "" && reply == Silent && after == reg
      else if words[0] == "HEARTBEAT" && |words| == 2 then
        text == if words[1] in reg then "OK heartbeat\n" else "ERROR not-registered\n"
      else if words[0] == "LOOKUP" && |words| == 2 then
        && after == reg
        && text == if words[1] in reg && now - reg[words[1]].lastSeen < 60_000_000_000
                   then "FOUND " + show(reg[words[1]].endpoint) + "\n" else "NOT_FOUND\n"
      else after == reg && text == if words[0] == "PING" then "PONG\n" else "ERROR invalid-command\n"
  {
    RequestsSpelled(line, words);
    SplitExactly(line, words);
    hide Spells, SplitWhitespace;
  }

  /** A LOOKUP line after an accepted REGISTER line, with nothing in between, is answered with the
      registered address for 60 seconds and with NOT_FOUND from then on. */
  lemma LookupAfterRegister(parse: Parser, reg: Registry, first: string, id: string, text: string, now: nat,
                            second: string, later: nat, show: Endpoint -> string)
    requires Spells(first, ["REGISTER", id, text]) && Spells(second, ["LOOKUP", id]) && now <= later
    requires AnswerTo(parse, reg, first, now, show) == "OK registered\n"
    ensures parse(text).Some?
    ensures AnswerTo(parse, Serve(parse, reg, Understand(first), now).0, second, later, show) ==
      if later - now < 60_000_000_000 then "FOUND " + show(parse(text).value) + "\n" else "NOT_FOUND\n"
  {
    RequestsSpelled(first, ["REGISTER", id, text]);
    OtherAnswers(parse, Serve(parse, reg, Understand(first), now).0, second, ["LOOKUP", id], later, show);
    hide Understand, ValidDeviceId, Spells;
  }
}
