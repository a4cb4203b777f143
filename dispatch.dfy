/**
  The command dispatcher of internal/bot/bot.go:110-202 as a function from
  the registry and one chat message to what handling it does: the registry
  afterwards, the reply (a template and the Replacer's argument pairs) if
  any, and whether the file of tasks is rewritten.
 */
module Dispatch {

  import opened Wrappers
  import opened Tasks
  import opened Templates
  import opened Commands
  import opened Registry

  /** The configuration the core reads: the channel replies go to, the prefix and the seven reply templates. */
  datatype Config = Config(
    channelName: string,
    commandPrefix: string,
    taskHelpMessage: string,
    taskInProgressMessage: string,
    noTaskMessage: string,
    taskAddedMessage: string,
    taskEditedMessage: string,
    taskCompletedMessage: string,
    taskCancelledMessage: string)

  /** An inbound chat message: its id (replies thread under it), its sender and its text. */
  datatype PrivateMessage = PrivateMessage(id: string, user: TwitchUser, message: string)

  /** A reply to send: the template and the pairs it is rendered with. */
  datatype ReplySpec = ReplySpec(template: string, bindings: Bindings)

  /** What handling one message does. */
  datatype Outcome = Outcome(tasks: TaskMap, reply: Option<ReplySpec>, flush: bool)

  /** The three pairs every reply is rendered with; %USER_NAME% is the login name, not the display name. */
  function MessageVariables(config: Config, message: PrivateMessage): (b: Bindings)
    ensures Lookup(b, CommandPrefix) == Some(config.commandPrefix)
    ensures Lookup(b, UserId) == Some(message.user.id)
    ensures Lookup(b, UserName) == Some(message.user.name)
    ensures Lookup(b, TaskName) == None
  {
    var b := [(CommandPrefix, config.commandPrefix), (UserId, message.user.id), (UserName, message.user.name)];
    assert b[1..][1..] == [(UserName, message.user.name)];
    assert Lookup(b[1..][1..], UserName) == Some(message.user.name);
    assert Lookup(b[1..], UserName) == Some(message.user.name);
    b
  }

  /** The subcommands that take a task name. */
  predicate NeedsName(sub: string)
  {
    sub == "add" || sub == "edit"
  }

  predicate IsKnownSubcommand(sub: string)
  {
    sub in {"add", "edit", "done", "complete", "delete", "cancel"}
  }

  /** The "task" messages answered with the help template: no subcommand, no task name, or an unknown subcommand. */
  predicate IsHelpRequest(command: string, args: seq<string>)
  {
    command == "task" &&
    (args == [] ||
     (NeedsName(Lower(args[0])) && |args| < 2) ||
     !IsKnownSubcommand(Lower(args[0])))
  }

  /** onCommandMessage. */
  function OnCommandMessage(config: Config, tasks: TaskMap, command: string, args: seq<string>, message: PrivateMessage): (o: Outcome)
    ensures !o.flush <==> IsHelpRequest(command, args)
    ensures o.reply.None? <==> command != "task"
    ensures !o.flush || o.reply.None? ==> o.tasks == tasks
    ensures forall id :: id != message.user.id ==> (id in o.tasks <==> id in tasks)
    ensures forall id :: id != message.user.id && id in tasks ==> o.tasks[id] == tasks[id]
    ensures forall id :: id in tasks && id in o.tasks ==> o.tasks[id].user == tasks[id].user
    ensures KeysMatch(tasks) ==> KeysMatch(o.tasks)
  {
    var vars := MessageVariables(config, message);
    var help := Outcome(tasks, Some(ReplySpec(config.taskHelpMessage, vars)), false);
    if command != "task" then Outcome(tasks, None, true)
    else if args == [] then help
    else
      var sub := Lower(args[0]);
      if sub == "add" then
        if |args| < 2 then help
        else
          var taskName := Join(args[1..], ' ');
          var (ok, tasks') := Add(tasks, message.user, taskName);
          var template := if ok then config.taskAddedMessage else config.taskInProgressMessage;
          Outcome(tasks', Some(ReplySpec(template, vars + [(TaskName, taskName)])), true)
      else if sub == "edit" then
        if |args| < 2 then help
        else
          var taskName := Join(args[1..], ' ');
          var (ok, tasks') := Edit(tasks, message.user.id, taskName);
          var template := if ok then config.taskEditedMessage else config.noTaskMessage;
          Outcome(tasks', Some(ReplySpec(template, vars + [(TaskName, taskName)])), true)
      else if sub == "done" || sub == "complete" then
        match Remove(tasks, message.user.id)
        case (Some(t), tasks') => Outcome(tasks', Some(ReplySpec(config.taskCompletedMessage, vars + [(TaskName, t.name)])), true)
        case (None, _) => Outcome(tasks, Some(ReplySpec(config.noTaskMessage, vars)), true)
      else if sub == "delete" || sub == "cancel" then
        match Remove(tasks, message.user.id)
        case (Some(t), tasks') => Outcome(tasks', Some(ReplySpec(config.taskCancelledMessage, vars + [(TaskName, t.name)])), true)
        case (None, _) => Outcome(tasks, Some(ReplySpec(config.noTaskMessage, vars)), true)
      else help
  }

  /**
    onPrivateMessage: a message without the prefix does nothing at all; a
    prefixed one is split after its first character and dispatched. Go's
    message[1:] panics on an empty message, which only an empty prefix
    lets through.
   */
  function OnPrivateMessage(config: Config, tasks: TaskMap, message: PrivateMessage): (o: Outcome)
    requires config.commandPrefix != [] || message.message != []
    ensures !(config.commandPrefix <= message.message) ==> o == Outcome(tasks, None, false)
    ensures KeysMatch(tasks) ==> KeysMatch(o.tasks)
  {
    match ParseCommand(config.commandPrefix, message.message)
    case None => Outcome(tasks, None, false)
    case Some(Command(command, args)) => OnCommandMessage(config, tasks, command, args, message)
  }

  /** The registry after handling a sequence of messages, one at a time, from an empty or given start. */
  function Run(config: Config, tasks: TaskMap, messages: seq<PrivateMessage>): (r: TaskMap)
    requires config.commandPrefix != [] || forall i :: 0 <= i < |messages| ==> messages[i].message != []
    ensures KeysMatch(tasks) ==> KeysMatch(r) && OneTaskPerUser(r)
    decreases |messages|
  {
    if messages == [] then tasks
    else Run(config, OnPrivateMessage(config, tasks, messages[0]).tasks, messages[1..])
  }
}
