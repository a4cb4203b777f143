/**
  Tokenising a chat line (internal/bot/bot.go:113-116, 135, 145, 161):
  strings.HasPrefix, message[1:], strings.Split on " ", strings.ToLower and
  strings.Join with " ". Strings are sequences of characters, one per byte
  of the Go string; lower-casing is the ASCII mapping.
 */
module Commands {

  import opened Wrappers

  /** ASCII lower-casing of one character. */
  function LowerChar(c: char): (d: char)
    ensures 'A' <= c <= 'Z' ==> d as int == c as int + 32
    ensures !('A' <= c <= 'Z') ==> d == c
  {
    if 'A' <= c <= 'Z' then (c as int + 32) as char else c
  }

  predicate IsLower(s: string)
  {
    forall i :: 0 <= i < |s| ==> !('A' <= s[i] <= 'Z')
  }

  /** strings.ToLower, restricted to ASCII. */
  function Lower(s: string): (r: string)
    ensures |r| == |s|
    ensures IsLower(r)
    ensures forall i :: 0 <= i < |s| ==> r[i] == LowerChar(s[i])
  {
    seq(|s|, i requires 0 <= i < |s| => LowerChar(s[i]))
  }

  /** Lower-casing changes nothing in a string that has no upper-case letter. */
  lemma LowerOfLower(s: string)
    requires IsLower(s)
    ensures Lower(s) == s
  {
  }

  /** Lower-casing is idempotent. */
  lemma LowerIdempotent(s: string)
    ensures Lower(Lower(s)) == Lower(s)
  {
    LowerOfLower(Lower(s));
  }

  /** strings.Split(s, sep) for a one-character separator. */
  function Split(s: string, sep: char): (r: seq<string>)
    ensures |r| >= 1
    ensures forall i :: 0 <= i < |r| ==> sep !in r[i]
    decreases |s|
  {
    if s == [] then [[]]
    else
      var rest := Split(s[1..], sep);
      if s[0] == sep then [[]] + rest
      else [[s[0]] + rest[0]] + rest[1..]
  }

  /** strings.Join(ts, sep) for a one-character separator. */
  function Join(ts: seq<string>, sep: char): (r: string)
  {
    if ts == [] then []
    else if |ts| == 1 then ts[0]
    else ts[0] + [sep] + Join(ts[1..], sep)
  }

  /** Joining the pieces of a split gives back the original text. */
  lemma {:induction false} JoinSplit(s: string, sep: char)
    ensures Join(Split(s, sep), sep) == s
  {
    if s != [] {
      var rest := Split(s[1..], sep);
      JoinSplit(s[1..], sep);
      if s[0] == sep {
        assert Split(s, sep)[1..] == rest;
      } else {
        var r := Split(s, sep);
        if |rest| == 1 {
          assert r == [[s[0]] + rest[0]];
        } else {
          assert r[1..] == rest[1..];
          assert Join(rest, sep) == rest[0] + [sep] + Join(rest[1..], sep);
        }
      }
      assert [s[0]] + s[1..] == s;
    }
  }

  /** Splitting a join of separator-free pieces gives back the pieces. */
  lemma {:induction false} SplitJoin(ts: seq<string>, sep: char)
    requires |ts| >= 1
    requires forall i :: 0 <= i < |ts| ==> sep !in ts[i]
    ensures Split(Join(ts, sep), sep) == ts
  {
    if |ts| == 1 {
      SplitFree(ts[0], sep);
    } else {
      SplitJoin(ts[1..], sep);
      SplitAppend(ts[0], Join(ts[1..], sep), sep);
      assert ts == [ts[0]] + ts[1..];
    }
  }

  /** A text without the separator splits into itself. */
  lemma {:induction false} SplitFree(t: string, sep: char)
    requires sep !in t
    ensures Split(t, sep) == [t]
    decreases |t|
  {
    if t != [] {
      SplitFree(t[1..], sep);
      assert [t[0]] + t[1..] == t;
    }
  }

  /** Splitting "t<sep>u", with no separator in t, puts t first and then the pieces of u. */
  lemma {:induction false} SplitAppend(t: string, u: string, sep: char)
    requires sep !in t
    ensures Split(t + [sep] + u, sep) == [t] + Split(u, sep)
    decreases |t|
  {
    if t == [] {
      assert t + [sep] + u == [sep] + u;
      assert ([sep] + u)[1..] == u;
    } else {
      SplitAppend(t[1..], u, sep);
      assert (t + [sep] + u)[1..] == t[1..] + [sep] + u;
      assert [t[0]] + t[1..] == t;
    }
  }

  /** A prefixed chat line split into its lower-cased command and its raw arguments. */
  datatype Command = Command(name: string, args: seq<string>)

  /**
    onPrivateMessage's parsing: a line is a command exactly when it starts
    with the prefix; then its first character (one character, whatever the
    prefix's length) is dropped, the rest is split on single spaces, and the
    first token, lower-cased, is the command.
    Go's text[1:] panics on an empty text, which only an empty prefix lets
    through; callers must not pass both empty.
   */
  function ParseCommand(prefix: string, text: string): (r: Option<Command>)
    requires prefix != [] || text != []
    ensures r.Some? <==> prefix <= text
    ensures r.Some? ==> IsLower(r.value.name) && ' ' !in r.value.name
    ensures r.Some? ==> forall i :: 0 <= i < |r.value.args| ==> ' ' !in r.value.args[i]
    ensures r.Some? ==> |text| == 1 + |r.value.name| + |Join(r.value.args, ' ')| + (if r.value.args == [] then 0 else 1)
    ensures r.Some? ==> exists t :: ' ' !in t && Lower(t) == r.value.name && Join([t] + r.value.args, ' ') == text[1..]
  {
    if prefix <= text then
      var tokens := Split(text[1..], ' ');
      JoinSplit(text[1..], ' ');
      JoinLength(tokens, ' ');
      assert [tokens[0]] + tokens[1..] == tokens;
      Some(Command(Lower(tokens[0]), tokens[1..]))
    else None
  }

  /** The length of a join of at least one piece. */
  lemma {:induction false} JoinLength(ts: seq<string>, sep: char)
    requires |ts| >= 1
    ensures |Join(ts, sep)| == |ts[0]| + |Join(ts[1..], sep)| + (if |ts| == 1 then 0 else 1)
  {
  }

  /**
    Round trip: a line that starts with the prefix, whatever the prefix's
    length, is its first character followed by space-free tokens joined with
    single spaces; it parses back to the first token lower-cased and the
    other tokens unchanged. A prefix longer than one character is therefore
    partly read as the command.
   */
  lemma ParseCommandJoin(prefix: string, c: char, tokens: seq<string>)
    requires |tokens| >= 1
    requires forall i :: 0 <= i < |tokens| ==> ' ' !in tokens[i]
    requires prefix <= [c] + Join(tokens, ' ')
    ensures ParseCommand(prefix, [c] + Join(tokens, ' ')) == Some(Command(Lower(tokens[0]), tokens[1..]))
  {
    var text := [c] + Join(tokens, ' ');
    assert text[1..] == Join(tokens, ' ');
    SplitJoin(tokens, ' ');
  }

  /**
    Only one character is dropped even when the prefix is longer: with
    prefix "!!", the line "!!task" is the command "!task", not "task".
   */
  lemma LongPrefixKeepsRest()
    ensures ParseCommand("!!", "!!task") == Some(Command("!task", []))
  {
    assert "!!task"[1..] == "!task";
    SplitFree("!task", ' ');
    LowerOfLower("!task");
  }

  /**
    Splitting on a single space keeps empty tokens: "!task add " has the
    arguments "add" and "", so its task name is the empty string.
   */
  lemma TrailingSpaceGivesEmptyToken()
    ensures ParseCommand("!", "!task add ") == Some(Command("task", ["add", ""]))
  {
    var tokens := ["task", "add", ""];
    assert Join(tokens[2..], ' ') == "";
    assert Join(tokens[1..], ' ') == "add" + " " + "";
    assert Join(tokens, ' ') == "task" + " " + "add ";
    assert "!" + Join(tokens, ' ') == "!task add ";
    ParseCommandJoin("!", '!', tokens);
    LowerOfLower("task");
  }
}
