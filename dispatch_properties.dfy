/**
  What the dispatcher promises, branch by branch, and end-to-end runs of
  whole chat lines under the default configuration of
  internal/config/config.go:24-35.
 */
module DispatchProperties {

  import opened Wrappers
  import opened Tasks
  import opened Templates
  import opened Commands
  import opened Registry
  import opened TasksFile
  import opened Dispatch

  /** Every help reply leaves the registry alone and skips the rewrite of the file. */
  lemma HelpBranch(config: Config, tasks: TaskMap, args: seq<string>, message: PrivateMessage)
    requires IsHelpRequest("task", args)
    ensures OnCommandMessage(config, tasks, "task", args, message)
         == Outcome(tasks, Some(ReplySpec(config.taskHelpMessage, MessageVariables(config, message))), false)
  {
  }

  /** A prefixed command other than "task" sends nothing, changes nothing, and still rewrites the file. */
  lemma OtherCommand(config: Config, tasks: TaskMap, command: string, args: seq<string>, message: PrivateMessage)
    requires command != "task"
    ensures OnCommandMessage(config, tasks, command, args, message) == Outcome(tasks, None, true)
  {
  }

  /** add: the name is the remaining arguments joined by single spaces; added on success, in-progress otherwise. */
  lemma AddBranch(config: Config, tasks: TaskMap, args: seq<string>, message: PrivateMessage)
    requires |args| >= 2 && Lower(args[0]) == "add"
    ensures var o := OnCommandMessage(config, tasks, "task", args, message);
            var taskName := Join(args[1..], ' ');
            var vars := MessageVariables(config, message) + [(TaskName, taskName)];
            o.flush &&
            (message.user.id !in tasks ==>
               o.tasks == tasks[message.user.id := NewTask(message.user, taskName)] &&
               o.reply == Some(ReplySpec(config.taskAddedMessage, vars))) &&
            (message.user.id in tasks ==>
               o.tasks == tasks &&
               o.reply == Some(ReplySpec(config.taskInProgressMessage, vars)))
  {
  }

  /** edit: renames the sender's task and replies edited, or replies no-task when there is none. */
  lemma EditBranch(config: Config, tasks: TaskMap, args: seq<string>, message: PrivateMessage)
    requires |args| >= 2 && Lower(args[0]) == "edit"
    ensures var o := OnCommandMessage(config, tasks, "task", args, message);
            var taskName := Join(args[1..], ' ');
            var vars := MessageVariables(config, message) + [(TaskName, taskName)];
            var id := message.user.id;
            o.flush &&
            (id in tasks ==>
               o.tasks == tasks[id := Task(tasks[id].user, taskName)] &&
               o.reply == Some(ReplySpec(config.taskEditedMessage, vars))) &&
            (id !in tasks ==>
               o.tasks == tasks &&
               o.reply == Some(ReplySpec(config.noTaskMessage, vars)))
  {
  }

  /** done/complete: removes the sender's task and names it in the completed reply, or replies no-task. */
  lemma CompleteBranch(config: Config, tasks: TaskMap, args: seq<string>, message: PrivateMessage)
    requires |args| >= 1 && Lower(args[0]) in {"done", "complete"}
    ensures var o := OnCommandMessage(config, tasks, "task", args, message);
            var vars := MessageVariables(config, message);
            var id := message.user.id;
            o.flush &&
            (id in tasks ==>
               o.tasks == tasks - {id} &&
               o.reply == Some(ReplySpec(config.taskCompletedMessage, vars + [(TaskName, tasks[id].name)]))) &&
            (id !in tasks ==>
               o.tasks == tasks &&
               o.reply == Some(ReplySpec(config.noTaskMessage, vars)))
  {
  }

  /** delete/cancel: removes the sender's task and names it in the cancelled reply, or replies no-task. */
  lemma CancelBranch(config: Config, tasks: TaskMap, args: seq<string>, message: PrivateMessage)
    requires |args| >= 1 && Lower(args[0]) in {"delete", "cancel"}
    ensures var o := OnCommandMessage(config, tasks, "task", args, message);
            var vars := MessageVariables(config, message);
            var id := message.user.id;
            o.flush &&
            (id in tasks ==>
               o.tasks == tasks - {id} &&
               o.reply == Some(ReplySpec(config.taskCancelledMessage, vars + [(TaskName, tasks[id].name)]))) &&
            (id !in tasks ==>
               o.tasks == tasks &&
               o.reply == Some(ReplySpec(config.noTaskMessage, vars)))
  {
  }

  /** The aliases behave identically, whatever the case of the subcommand and whatever follows it. */
  lemma Aliases(config: Config, tasks: TaskMap, a: string, b: string, rest: seq<string>, message: PrivateMessage)
    requires (Lower(a) in {"done", "complete"} && Lower(b) in {"done", "complete"}) ||
             (Lower(a) in {"delete", "cancel"} && Lower(b) in {"delete", "cancel"})
    ensures OnCommandMessage(config, tasks, "task", [a] + rest, message)
         == OnCommandMessage(config, tasks, "task", [b] + rest, message)
  {
  }

  /** After the rewrite the file holds exactly one line per current task, and a line for the new task. */
  lemma AddedTaskIsInFile(config: Config, tasks: TaskMap, args: seq<string>, message: PrivateMessage)
    requires |args| >= 2 && Lower(args[0]) == "add" && message.user.id !in tasks
    ensures var o := OnCommandMessage(config, tasks, "task", args, message);
            Snapshot(o.tasks) == Snapshot(tasks) + multiset{String(NewTask(message.user, Join(args[1..], ' ')))}
  {
    SnapshotAfterAdd(tasks, message.user, Join(args[1..], ' '));
  }

  /** The stock configuration's prefix and "added" template (internal/config/config.go:26, 30). */
  predicate StockAddConfig(config: Config)
  {
    config.commandPrefix == "!" && config.taskAddedMessage == "Starting work on %TASK_NAME%. Good luck!"
  }

  /** The sender of the end-to-end scenarios: id "42", login "ann", display name "Ann". */
  function Ann(): TwitchUser
  {
    TwitchUser("42", "ann", "Ann")
  }

  /** A bound %TASK_NAME% is substituted once; the unbound text around it is kept. */
  lemma RenderAdded(b: Bindings)
    requires Lookup(b, TaskName) == Some("write report")
    ensures Replace(b, "Starting work on %TASK_NAME%. Good luck!") == "Starting work on write report. Good luck!"
  {
    AddedTemplateParts();
    ReplaceOne(b, "Starting work on ", TaskName, ". Good luck!");
    AddedReplyParts();
  }

  /** The "added" template around its one placeholder. */
  lemma AddedTemplateParts()
    ensures "Starting work on %TASK_NAME%. Good luck!" == "Starting work on " + Key(TaskName) + ". Good luck!"
    ensures '%' !in "Starting work on " && '%' !in ". Good luck!"
  {
  }

  /** The "added" reply around the new task's name. */
  lemma AddedReplyParts()
    ensures "Starting work on " + "write report" + ". Good luck!" == "Starting work on write report. Good luck!"
  {
  }

  /** Substitution is not recursive: a value that looks like a key is inserted literally. */
  lemma RenderIsNotRecursive()
    ensures Replace([(TaskName, "%USER_ID%"), (UserId, "42")], "%TASK_NAME%") == "%USER_ID%"
  {
    var b := [(TaskName, "%USER_ID%"), (UserId, "42")];
    ReplaceKey(b, TaskName, "");
    assert Key(TaskName) + "" == "%TASK_NAME%";
  }

  /** An unbound placeholder passes through: "%TASK_NAME%" survives in a reply that does not bind it. */
  lemma RenderUnbound(config: Config, message: PrivateMessage)
    ensures Replace(MessageVariables(config, message), "%TASK_NAME%") == "%TASK_NAME%"
  {
    ReplaceUnboundAlone(MessageVariables(config, message), TaskName);
  }

  /**
    "!task add write report" is the command "task" with three arguments.
    The line is a parameter, not a literal, to keep the solver within its
    resource limit: a ParseCommand term whose arguments are all literals is
    unfolded eagerly in every scenario that uses this fact.
   */
  lemma ParseAddLine(text: string)
    requires text == "!task add write report"
    ensures ParseCommand("!", text) == Some(Command("task", ["add", "write", "report"]))
  {
    LowerOfLower("task");
    JoinAddLine();
    ParseCommandJoin("!", '!', ["task", "add", "write", "report"]);
  }

  lemma JoinAddLine()
    ensures "!" + Join(["task", "add", "write", "report"], ' ') == "!task add write report"
  {
    var tokens := ["task", "add", "write", "report"];
    assert Join(tokens[3..], ' ') == "report";
    assert Join(tokens[2..], ' ') == "write report";
    assert Join(tokens[1..], ' ') == "add write report";
  }

  /** "!task" is the command "task" with no arguments (a parameter for the reason given at ParseAddLine). */
  lemma ParseTaskLine(text: string)
    requires text == "!task"
    ensures ParseCommand("!", text) == Some(Command("task", []))
  {
    LowerOfLower("task");
    ParseCommandJoin("!", '!', ["task"]);
  }

  /** "!task done" is the command "task" with the argument "done" (a parameter for the reason given at ParseAddLine). */
  lemma ParseDoneLine(text: string)
    requires text == "!task done"
    ensures ParseCommand("!", text) == Some(Command("task", ["done"]))
  {
    LowerOfLower("task");
    assert "!" + Join(["task", "done"], ' ') == text;
    ParseCommandJoin("!", '!', ["task", "done"]);
  }

  /** "!task add write report" from a user without a task: added, filed, rendered and written out. */
  lemma ScenarioAdd(config: Config, tasks: TaskMap, message: PrivateMessage)
    requires StockAddConfig(config)
    requires message.user == Ann() && message.message == "!task add write report"
    requires "42" !in tasks
    ensures var o := OnPrivateMessage(config, tasks, message);
            && o.tasks == tasks["42" := Task(User("42", "Ann"), "write report")]
            && o.flush
            && o.reply.Some?
            && Replace(o.reply.value.bindings, o.reply.value.template) == "Starting work on write report. Good luck!"
            && "Ann: write report\n" in Snapshot(o.tasks)
  {
    var o := OnPrivateMessage(config, tasks, message);
    var b := MessageVariables(config, message) + [(TaskName, "write report")];
    ScenarioAddOutcome(config, tasks, message);
    LookupConcat(MessageVariables(config, message), [(TaskName, "write report")], TaskName);
    RenderAdded(b);
    var t := Task(User("42", "Ann"), "write report");
    assert o.tasks["42"] == t;
    SnapshotHas(o.tasks, "42");
    AnnLine();
  }

  /** The registry change, reply and rewrite of the "!task add write report" scenario. */
  lemma ScenarioAddOutcome(config: Config, tasks: TaskMap, message: PrivateMessage)
    requires config.commandPrefix == "!"
    requires message.user == Ann() && message.message == "!task add write report"
    requires "42" !in tasks
    ensures OnPrivateMessage(config, tasks, message)
         == Outcome(tasks["42" := Task(User("42", "Ann"), "write report")],
                    Some(ReplySpec(config.taskAddedMessage, MessageVariables(config, message) + [(TaskName, "write report")])),
                    true)
  {
    var args := ["add", "write", "report"];
    ParseAddLine(message.message);
    Dispatched(config, tasks, message, Command("task", args));
    AddWriteReport(config, tasks, args, message);
  }

  /** A parsed line is handled as its command. */
  lemma Dispatched(config: Config, tasks: TaskMap, message: PrivateMessage, command: Command)
    requires config.commandPrefix != [] || message.message != []
    requires ParseCommand(config.commandPrefix, message.message) == Some(command)
    ensures OnPrivateMessage(config, tasks, message) == OnCommandMessage(config, tasks, command.name, command.args, message)
  {
  }

  /** The add branch for the arguments "add", "write", "report". */
  lemma AddWriteReport(config: Config, tasks: TaskMap, args: seq<string>, message: PrivateMessage)
    requires args == ["add", "write", "report"] && message.user == Ann() && "42" !in tasks
    ensures OnCommandMessage(config, tasks, "task", args, message)
         == Outcome(tasks["42" := Task(User("42", "Ann"), "write report")],
                    Some(ReplySpec(config.taskAddedMessage, MessageVariables(config, message) + [(TaskName, "write report")])),
                    true)
  {
    LowerOfLower("add");
    assert args[1..] == ["write", "report"];
    assert Join(args[1..], ' ') == "write report";
    AddBranch(config, tasks, args, message);
  }

  /** The line written for the scenario's task. */
  lemma AnnLine()
    ensures String(Task(User("42", "Ann"), "write report")) == "Ann: write report\n"
  {
  }

  /** "!task" alone: the help reply, no change, no rewrite of the file. */
  lemma ScenarioHelp(config: Config, tasks: TaskMap, message: PrivateMessage)
    requires config.commandPrefix == "!"
    requires message.message == "!task"
    ensures OnPrivateMessage(config, tasks, message)
              == Outcome(tasks, Some(ReplySpec(config.taskHelpMessage, MessageVariables(config, message))), false)
  {
    ParseTaskLine(message.message);
  }

  /** "!task done" without a task: the no-task reply, no change, and the file is still rewritten. */
  lemma ScenarioDoneWithoutTask(config: Config, tasks: TaskMap, message: PrivateMessage)
    requires config.commandPrefix == "!"
    requires message.message == "!task done" && message.user.id !in tasks
    ensures OnPrivateMessage(config, tasks, message)
              == Outcome(tasks, Some(ReplySpec(config.noTaskMessage, MessageVariables(config, message))), true)
  {
    ParseDoneLine(message.message);
    LowerOfLower("done");
    CompleteBranch(config, tasks, ["done"], message);
  }
}
