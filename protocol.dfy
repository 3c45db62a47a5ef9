/**
 The line protocol spoken between the relay and a client: how one line read
 from a client after the username handshake is classified, and the exact
 lines the relay writes back.
 */
module Protocol {
  import opened Text

  /** What a client's line asks for, once trimmed. */
  datatype Command =
    | Blank                          // nothing left after trimming: ignored
    | Quit                           // `QUIT`, any case
    | List                           // `LIST`, any case
    | PmUsage                        // starts with `PM ` but has no text part
    | Pm(to: string, text: string)   // `PM <user> <text>`
    | Say(text: string)              // `MSG <text>`, or any other line

  /** The line, upper-cased, begins with `keyword` (`line.toUpperCase().startsWith(keyword)`). */
  predicate HasKeyword(line: string, keyword: string) {
    StartsWith(ToUpper(line), keyword)
  }

  /**
   The dispatch of the session's read loop: trim, then test QUIT, LIST, the
   `PM ` prefix (split on " " with limit 3), the `MSG ` prefix, in that order;
   anything else non-empty is a broadcast of the whole trimmed line.
   */
  function Classify(raw: string): Command {
    ClassifyTrimmed(Trim(raw))
  }

  /** The tests of the read loop, on a line that is already trimmed. */
  function ClassifyTrimmed(line: string): Command {
    if line == [] then Blank
    else if EqualsIgnoreCase(line, "QUIT") then Quit
    else if EqualsIgnoreCase(line, "LIST") then List
    else if HasKeyword(line, "PM ") then PmCommand(line)
    else if HasKeyword(line, "MSG ") then Say(line[4..])
    else Say(line)
  }

  /** `PM <user> <text>`: `line.split(" ", 3)` must give three parts. */
  function PmCommand(line: string): Command {
    var parts := Split(line, ' ', 3);
    if |parts| < 3 then PmUsage else Pm(parts[1], parts[2])
  }

  // Lines the relay writes to a client.

  const Prompt := "[SYSTEM] Enter username:"
  const Retry := "[SYSTEM] Username already taken. Enter a different username:"
  const Disconnecting := "[SYSTEM] Username already taken. Disconnecting."
  const Goodbye := "[SYSTEM] Goodbye!"
  const PmUsageLine := "[SYSTEM] Invalid PM format. Use: PM <user> <message>"

  function Welcome(name: string): string {
    "[SYSTEM] Welcome, " + name + "!"
  }

  /** The announcement text of a join, handed to the system broadcast. */
  function JoinedText(name: string): string {
    name + " has joined the chat."
  }

  /** The announcement text of a departure, handed to the system broadcast. */
  function LeftText(name: string): string {
    name + " has left the chat."
  }

  function SystemLine(text: string): string {
    "[SYSTEM] " + text
  }

  function ChatLine(from: string, text: string): string {
    from + ": " + text
  }

  function PmFromLine(from: string, text: string): string {
    "[PM from " + from + "] " + text
  }

  function PmToLine(to: string, text: string): string {
    "[PM to " + to + "] " + text
  }

  function NotFoundLine(to: string): string {
    "[SYSTEM] User '" + to + "' not found."
  }

  function UsersLine(names: seq<string>): string {
    "[SYSTEM] Connected users: " + Join(names, ", ")
  }

  // Properties of the classification.

  /** A line is ignored exactly when it is empty after trimming. */
  lemma ClassifyBlank(raw: string)
    ensures Classify(raw) == Blank <==> Trim(raw) == []
  {
  }

  /** QUIT, in any case, ends the session, whatever else could match. */
  lemma ClassifyQuit(raw: string)
    ensures Classify(raw) == Quit <==> EqualsIgnoreCase(Trim(raw), "QUIT")
  {
  }

  /** LIST, in any case, asks for the user list. */
  lemma ClassifyList(raw: string)
    ensures Classify(raw) == List <==> EqualsIgnoreCase(Trim(raw), "LIST")
  {
    var line := Trim(raw);
    if EqualsIgnoreCase(line, "LIST") {
      assert UpperChar(line[0]) == 'L';
      assert ClassifyTrimmed(line) == List;
    }
  }

  /** A trimmed line with the `PM ` prefix is its two-letter keyword, a space, and a non-empty rest. */
  lemma PmPrefixLayout(line: string)
    requires IsTrimmed(line) && HasKeyword(line, "PM ")
    ensures |line| > 3 && line == line[..2] + " " + line[3..]
    ensures ' ' !in line[..2]
  {
    assert ToUpper(line)[..3] == "PM ";
    ToUpperAt(line, 0);
    ToUpperAt(line, 1);
    ToUpperAt(line, 2);
    assert UpperChar(line[0]) == 'P' && UpperChar(line[1]) == 'M' && UpperChar(line[2]) == ' ';
    assert line == line[..2] + " " + line[3..];
  }

  /** A line with the `PM ` or `MSG ` prefix is neither QUIT nor LIST. */
  lemma PrefixIsNotKeyword(line: string, prefix: string)
    requires prefix == "PM " || prefix == "MSG "
    requires HasKeyword(line, prefix)
    ensures !EqualsIgnoreCase(line, "QUIT") && !EqualsIgnoreCase(line, "LIST")
  {
    assert ToUpper(line)[..|prefix|] == prefix;
    ToUpperAt(line, 0);
    assert UpperChar(line[0]) == prefix[0];
  }

  /** The keyword is the first part of the split; the rest is split once more. */
  lemma PmPrefixSplit(line: string)
    requires IsTrimmed(line) && HasKeyword(line, "PM ")
    ensures |line| > 3
    ensures Split(line, ' ', 3) == [line[..2]] + Split(line[3..], ' ', 2)
  {
    PmPrefixLayout(line);
    SplitAtFirst(line[..2], ' ', line[3..], 3);
  }

  /** A `PM ` line becomes what `PmCommand` makes of it. */
  lemma ClassifyPmPrefix(raw: string)
    requires HasKeyword(Trim(raw), "PM ")
    ensures Classify(raw) == PmCommand(Trim(raw))
  {
    var line := Trim(raw);
    PrefixIsNotKeyword(line, "PM ");
    assert ClassifyTrimmed(line) == PmCommand(line);
  }

  /**
   A `PM ` line is rejected with a usage error exactly when no space follows
   the user name: `split(" ", 3)` then yields fewer than three parts.
   */
  lemma ClassifyPmUsage(raw: string)
    ensures Classify(raw) == PmUsage <==> HasKeyword(Trim(raw), "PM ") && ' ' !in Trim(raw)[3..]
  {
    var line := Trim(raw);
    if HasKeyword(line, "PM ") {
      ClassifyPmPrefix(raw);
      PmPrefixSplit(line);
      var rest := Split(line[3..], ' ', 2);
      if ' ' in line[3..] {
        assert |rest| == 2;
      }
    } else {
      assert ClassifyTrimmed(line) != PmUsage;
    }
  }

  /**
   `PM <user> <text>`, with the keyword in any case, a user without spaces and
   a text that does not end in whitespace, is a private message to that user
   carrying the text intact, spaces included.
   */
  lemma ClassifyPm(keyword: string, user: string, text: string)
    requires EqualsIgnoreCase(keyword, "PM")
    requires ' ' !in user
    requires text != [] && !IsTrimmable(text[|text| - 1])
    ensures Classify(keyword + " " + user + " " + text) == Pm(user, text)
  {
    var line := keyword + " " + user + " " + text;
    PmLineLayout(keyword, user, text);
    ClassifyPmPrefix(line);
    PmSplit(line, keyword, user, text);
  }

  /** The line `keyword user text` is trimmed, has the `PM ` prefix, and is laid out as written. */
  lemma PmLineLayout(keyword: string, user: string, text: string)
    requires EqualsIgnoreCase(keyword, "PM")
    requires text != [] && !IsTrimmable(text[|text| - 1])
    ensures var line := keyword + " " + user + " " + text;
      IsTrimmed(line) && HasKeyword(line, "PM ") &&
      line[..2] == keyword && line[3..] == user + " " + text
  {
    var line := keyword + " " + user + " " + text;
    assert IsTrimmed(line) by {
      assert UpperChar(keyword[0]) == 'P';
      assert line[0] == keyword[0] && line[|line| - 1] == text[|text| - 1];
    }
    assert HasKeyword(line, "PM ") by {
      ToUpperAt(line, 0);
      ToUpperAt(line, 1);
      ToUpperAt(line, 2);
      assert ToUpper(line)[..3] == "PM ";
    }
  }

  /** `split(" ", 3)` of the `PM` line gives back its three pieces. */
  lemma PmSplit(line: string, keyword: string, user: string, text: string)
    requires IsTrimmed(line) && HasKeyword(line, "PM ")
    requires ' ' !in user && line[..2] == keyword && line[3..] == user + " " + text
    ensures PmCommand(line) == Pm(user, text)
  {
    PmPrefixSplit(line);
    SplitAtFirst(user, ' ', text, 2);
    assert Split(line, ' ', 3) == [keyword, user, text];
  }

  /** Whatever a private message dispatches, the trimmed line was `PM`, the user, a space and the text. */
  lemma ClassifyPmParts(raw: string)
    requires Classify(raw).Pm?
    ensures var c := Classify(raw);
      ' ' !in c.to && Trim(raw) == Trim(raw)[..3] + c.to + " " + c.text
  {
    var line := Trim(raw);
    assert HasKeyword(line, "PM ") by {
      assert ClassifyTrimmed(line).Pm?;
    }
    ClassifyPmPrefix(raw);
    PmCommandParts(line);
  }

  /** The pieces of a successful `PM` split, put back together, are the line. */
  lemma PmCommandParts(line: string)
    requires IsTrimmed(line) && HasKeyword(line, "PM ") && PmCommand(line).Pm?
    ensures var c := PmCommand(line);
      ' ' !in c.to && line == line[..3] + c.to + " " + c.text
  {
    PmPrefixSplit(line);
    var rest := Split(line[3..], ' ', 2);
    assert |rest| == 2;
    SplitInTwo(line[3..], ' ');
    var c := PmCommand(line);
    assert c.to == rest[0] && c.text == rest[1];
    var head, tail := line[..3], line[3..];
    assert line == head + tail;
    assert tail == c.to + " " + c.text;
    AppendAssoc(head, c.to + " ", c.text);
    AppendAssoc(head, c.to, " ");
  }

  /** `MSG <text>`, in any case, broadcasts what follows the four-character prefix. */
  lemma ClassifyMsg(raw: string)
    requires HasKeyword(Trim(raw), "MSG ")
    ensures Classify(raw) == Say(Trim(raw)[4..])
  {
    var line := Trim(raw);
    PrefixIsNotKeyword(line, "MSG ");
    assert !HasKeyword(line, "PM ") by {
      assert ToUpper(line)[..4] == "MSG ";
      assert ToUpper(line)[0] == 'M';
    }
    assert ClassifyTrimmed(line) == Say(line[4..]);
  }

  /** Any other non-empty line, a bare `MSG` or `PM` included, broadcasts the whole trimmed line. */
  lemma ClassifyDefault(raw: string)
    requires Trim(raw) != []
    requires !EqualsIgnoreCase(Trim(raw), "QUIT") && !EqualsIgnoreCase(Trim(raw), "LIST")
    requires !HasKeyword(Trim(raw), "PM ") && !HasKeyword(Trim(raw), "MSG ")
    ensures Classify(raw) == Say(Trim(raw))
  {
  }

  /** `PM bob` names a user but carries no text: a usage error. */
  lemma ClassifyPmWithoutText()
    ensures Classify("PM bob") == PmUsage
  {
    assert IsTrimmed("PM bob");
    assert HasKeyword("PM bob", "PM ") by {
      ToUpperAt("PM bob", 0);
      ToUpperAt("PM bob", 1);
      ToUpperAt("PM bob", 2);
      assert ToUpper("PM bob")[..3] == "PM ";
    }
    ClassifyPmUsage("PM bob");
  }

  /** A lower-case keyword works, and the text keeps its inner spaces. */
  lemma ClassifyPmLowerCase()
    ensures Classify("pm bob hi  there") == Pm("bob", "hi  there")
  {
    assert EqualsIgnoreCase("pm", "PM") && ' ' !in "bob";
    assert "pm" + " " + "bob" + " " + "hi  there" == "pm bob hi  there";
    ClassifyPm("pm", "bob", "hi  there");
  }

  /** A bare `MSG` or `PM` is not a command: it is broadcast as it is. */
  lemma ClassifyBareKeywords()
    ensures Classify("MSG") == Say("MSG")
    ensures Classify("PM") == Say("PM")
  {
    assert IsTrimmed("MSG") && IsTrimmed("PM");
    ToUpperAt("MSG", 0);
    ClassifyDefault("MSG");
    ClassifyDefault("PM");
  }
}
