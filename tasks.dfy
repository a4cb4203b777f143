/**
  The record of a task in internal/bot/task.go: who owns it, the owner's display
  name captured at creation, and the free-text task name; and the one-line
  rendering written to the file of tasks.
 */
module Tasks {

  import opened Wrappers

  /** The chat identity the transport attaches to a message (colour and badges left out). */
  datatype TwitchUser = TwitchUser(id: string, name: string, displayName: string)

  /** The bot's own copy of the owner: identifier and display name only. */
  datatype User = User(id: string, displayName: string)

  datatype Task = Task(user: User, name: string)

  /** newTask: copies the sender's id and display name, never the login name. */
  function NewTask(user: TwitchUser, taskName: string): (t: Task)
    ensures t.user.id == user.id && t.user.displayName == user.displayName
    ensures t.name == taskName
  {
    Task(User(user.id, user.displayName), taskName)
  }

  /** Task.String: the display name, ": ", its name and a newline. */
  function String(t: Task): (line: string)
  {
    t.user.displayName + ": " + t.name + "\n"
  }

  /**
    The layout of a rendered line: it starts with the display name and ends
    with a newline whatever its name is, even an empty one, and is
    three characters longer than the two names together.
   */
  lemma StringLayout(t: Task)
    ensures var line := String(t);
            var n := |t.user.displayName|;
            && |line| == n + |t.name| + 3
            && line[..n] == t.user.displayName
            && line[n..n + 2] == ": "
            && line[n + 2..|line| - 1] == t.name
            && line[|line| - 1] == '\n'
  {
  }

  /** A created task does not depend on the sender's login name. */
  lemma NewTaskIgnoresLoginName(u: TwitchUser, v: TwitchUser, taskName: string)
    requires u.id == v.id && u.displayName == v.displayName
    ensures NewTask(u, taskName) == NewTask(v, taskName)
  {
  }

  /** The first index of ':' in `s`, if any. */
  function IndexOfColon(s: string): (r: Option<nat>)
    ensures r.Some? ==> r.value < |s| && s[r.value] == ':' && ':' !in s[..r.value]
    ensures r.None? ==> ':' !in s
  {
    if s == [] then None
    else if s[0] == ':' then Some(0)
    else
      match IndexOfColon(s[1..])
      case None => None
      case Some(i) =>
        assert s[..i + 1] == [s[0]] + s[1..][..i];
        Some(i + 1)
  }

  /**
    Reads one rendered line back into (display name, task name): the text
    before the first ':' and the text between ": " and the final newline.
   */
  function ParseLine(line: string): (names: Option<(string, string)>)
  {
    match IndexOfColon(line)
    case None => None
    case Some(i) =>
      if i + 2 < |line| && line[i + 1] == ' ' && line[|line| - 1] == '\n'
      then Some((line[..i], line[i + 2..|line| - 1]))
      else None
  }

  /**
    A line is read back to that task it came from whenever the display name
    has no ':': for such names the file format is unambiguous.
   */
  lemma {:induction false} ParseString(t: Task)
    requires ':' !in t.user.displayName
    ensures ParseLine(String(t)) == Some((t.user.displayName, t.name))
  {
    var line := String(t);
    var n := |t.user.displayName|;
    StringLayout(t);
    assert line[..n] == t.user.displayName;
    assert line[n] == ':';
    var r := IndexOfColon(line);
    assert r.Some? ==> r.value >= n;
    assert r.Some? && r.value <= n;
  }

  /** Two tasks with colon-free display names render to the same line only if they agree. */
  lemma StringInjective(t: Task, u: Task)
    requires ':' !in t.user.displayName && ':' !in u.user.displayName
    requires String(t) == String(u)
    ensures t.user.displayName == u.user.displayName && t.name == u.name
  {
    ParseString(t);
    ParseString(u);
  }

  /** With a ':' in a display name the format is ambiguous: two different tasks give the same line. */
  lemma ColonMakesLinesAmbiguous()
    ensures String(Task(User("1", "a: b"), "c")) == String(Task(User("2", "a"), "b: c")) == "a: b: c\n"
  {
  }
}
