/**
  The Bot of internal/bot/bot.go: the registry it owns and updates in
  place, the file of tasks it rewrites, and the replies it hands to the chat
  client. Each method is proved against the pure dispatcher and registry
  operations, whose properties are proved in DispatchProperties and
  TasksFile.
 */
module Bot {

  import opened Wrappers
  import opened Tasks
  import opened Templates
  import opened Commands
  import opened Registry
  import opened TasksFile
  import opened Dispatch

  /** A reply given to the chat client: the channel, the message it answers, the rendered text. */
  datatype SentReply = SentReply(channel: string, parentMessageId: string, text: string)

  /** The replies an outcome sends: none, or its template rendered with its pairs. */
  function Sends(config: Config, parentMessageId: string, reply: Option<ReplySpec>): (r: seq<SentReply>)
    ensures |r| == if reply.Some? then 1 else 0
    ensures reply.Some? ==> r[0].channel == config.channelName && r[0].parentMessageId == parentMessageId
    ensures reply.Some? ==> r[0].text == Replace(reply.value.bindings, reply.value.template)
  {
    match reply
    case None => []
    case Some(ReplySpec(template, bindings)) => [SentReply(config.channelName, parentMessageId, Replace(bindings, template))]
  }

  class Bot {
    const config: Config
    /** b.tasks: user id to that user's task. */
    var tasks: TaskMap
    /** The lines of tasks.txt, as last written. */
    var tasksFile: seq<string>
    /** Every reply handed to the chat client, oldest first. */
    var sent: seq<SentReply>

    ghost predicate Valid()
      reads this
    {
      KeysMatch(tasks)
    }

    /** New: an empty registry; the file on disk is whatever it was. */
    constructor (config: Config, existingFile: seq<string>)
      ensures Valid()
      ensures this.config == config && tasks == map[] && tasksFile == existingFile && sent == []
    {
      this.config := config;
      tasks := map[];
      tasksFile := existingFile;
      sent := [];
    }

    /** Start rewrites the file before connecting; the connection itself is not modelled. */
    method Start(createOk: bool)
      modifies this`tasksFile
      ensures createOk ==> multiset(tasksFile) == Snapshot(tasks)
      ensures !createOk ==> tasksFile == old(tasksFile)
    {
      UpdateTasksFile(createOk);
    }

    /** Reply: renders the template in one Replacer pass and sends it as a reply to the given message. */
    method Reply(parentMessageId: string, text: string, replacer: Bindings)
      modifies this`sent
      ensures sent == old(sent) + [SentReply(config.channelName, parentMessageId, Replace(replacer, text))]
    {
      sent := sent + [SentReply(config.channelName, parentMessageId, Replace(replacer, text))];
    }

    /**
      UpdateTasksFile: when the file can be created (createOk) it is
      truncated and one line per task is written, in the map's unspecified
      order; otherwise nothing happens.
     */
    method UpdateTasksFile(createOk: bool)
      modifies this`tasksFile
      ensures createOk ==> multiset(tasksFile) == Snapshot(tasks) && |tasksFile| == |tasks|
      ensures !createOk ==> tasksFile == old(tasksFile)
    {
      if !createOk {
        return;
      }
      tasksFile := [];
      var remaining := tasks.Keys;
      RestrictAll(tasks);
      while remaining != {}
        invariant remaining <= tasks.Keys
        invariant multiset(tasksFile) + Snapshot(Restrict(tasks, remaining)) == Snapshot(tasks)
        decreases |remaining|
      {
        var id :| id in remaining;
        RestrictStep(tasks, remaining, id);
        tasksFile := tasksFile + [String(tasks[id])];
        remaining := remaining - {id};
      }
      RestrictNone(tasks);
      SnapshotSize(tasks);
    }

    /** AddTask: fails for a user who already has a task; otherwise files a new task under the user's id. */
    method AddTask(user: TwitchUser, taskName: string) returns (ok: bool)
      requires Valid()
      modifies this`tasks
      ensures Valid()
      ensures ok <==> user.id !in old(tasks)
      ensures !ok ==> tasks == old(tasks)
      ensures ok ==> tasks == old(tasks)[user.id := NewTask(user, taskName)]
    {
      if user.id in tasks {
        return false;
      }
      tasks := tasks[user.id := NewTask(user, taskName)];
      return true;
    }

    /** EditTask: fails for a user without a task; otherwise changes only that task's name. */
    method EditTask(userId: string, taskName: string) returns (ok: bool)
      requires Valid()
      modifies this`tasks
      ensures Valid()
      ensures ok <==> userId in old(tasks)
      ensures !ok ==> tasks == old(tasks)
      ensures ok ==> tasks == old(tasks)[userId := Task(old(tasks)[userId].user, taskName)]
    {
      if userId !in tasks {
        return false;
      }
      var task := tasks[userId];
      tasks := tasks[userId := task.(name := taskName)];
      return true;
    }

    /** RemoveTask: fails for a user without a task; otherwise deletes the entry and returns that task. */
    method RemoveTask(userId: string) returns (task: Option<Task>)
      requires Valid()
      modifies this`tasks
      ensures Valid()
      ensures task.Some? <==> userId in old(tasks)
      ensures task.None? ==> tasks == old(tasks)
      ensures task.Some? ==> task.value == old(tasks)[userId] && tasks == old(tasks) - {userId}
    {
      if userId !in tasks {
        return None;
      }
      task := Some(tasks[userId]);
      tasks := tasks - {userId};
    }

    /** onPrivateMessage: does exactly what Dispatch.OnPrivateMessage describes. */
    method OnPrivateMessage(message: PrivateMessage, createOk: bool)
      requires Valid()
      requires config.commandPrefix != [] || message.message != []
      modifies this`tasks, this`tasksFile, this`sent
      ensures Valid()
      ensures var o := Dispatch.OnPrivateMessage(config, old(tasks), message);
              && tasks == o.tasks
              && sent == old(sent) + Sends(config, message.id, o.reply)
              && (o.flush && createOk ==> multiset(tasksFile) == Snapshot(tasks))
              && (!(o.flush && createOk) ==> tasksFile == old(tasksFile))
    {
      if config.commandPrefix <= message.message {
        var args := Split(message.message[1..], ' ');
        OnCommandMessage(Lower(args[0]), args[1..], message, createOk);
      }
    }

    /** onCommandMessage: does exactly what Dispatch.OnCommandMessage describes. */
    method OnCommandMessage(command: string, args: seq<string>, message: PrivateMessage, createOk: bool)
      requires Valid()
      modifies this`tasks, this`tasksFile, this`sent
      ensures Valid()
      ensures var o := Dispatch.OnCommandMessage(config, old(tasks), command, args, message);
              && tasks == o.tasks
              && sent == old(sent) + Sends(config, message.id, o.reply)
              && (o.flush && createOk ==> multiset(tasksFile) == Snapshot(tasks))
              && (!(o.flush && createOk) ==> tasksFile == old(tasksFile))
    {
      var messageVariables := [
        (CommandPrefix, config.commandPrefix),
        (UserId, message.user.id),
        (UserName, message.user.name)];
      if command == "task" {
        if |args| == 0 {
          Reply(message.id, config.taskHelpMessage, messageVariables);
          return;
        }
        var subCommand := Lower(args[0]);
        if subCommand == "add" {
          if |args| < 2 {
            Reply(message.id, config.taskHelpMessage, messageVariables);
            return;
          }
          var taskName := Join(args[1..], ' ');
          messageVariables := messageVariables + [(TaskName, taskName)];
          var ok := AddTask(message.user, taskName);
          if ok {
            Reply(message.id, config.taskAddedMessage, messageVariables);
          } else {
            Reply(message.id, config.taskInProgressMessage, messageVariables);
          }
        } else if subCommand == "edit" {
          if |args| < 2 {
            Reply(message.id, config.taskHelpMessage, messageVariables);
            return;
          }
          var taskName := Join(args[1..], ' ');
          messageVariables := messageVariables + [(TaskName, taskName)];
          var ok := EditTask(message.user.id, taskName);
          if ok {
            Reply(message.id, config.taskEditedMessage, messageVariables);
          } else {
            Reply(message.id, config.noTaskMessage, messageVariables);
          }
        } else if subCommand == "done" || subCommand == "complete" {
          var task := RemoveTask(message.user.id);
          if task.Some? {
            messageVariables := messageVariables + [(TaskName, task.value.name)];
            Reply(message.id, config.taskCompletedMessage, messageVariables);
          } else {
            Reply(message.id, config.noTaskMessage, messageVariables);
          }
        } else if subCommand == "delete" || subCommand == "cancel" {
          var task := RemoveTask(message.user.id);
          if task.Some? {
            messageVariables := messageVariables + [(TaskName, task.value.name)];
            Reply(message.id, config.taskCancelledMessage, messageVariables);
          } else {
            Reply(message.id, config.noTaskMessage, messageVariables);
          }
        } else {
          Reply(message.id, config.taskHelpMessage, messageVariables);
          return;
        }
      }
      UpdateTasksFile(createOk);
    }
  }
}
