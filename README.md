# twitch-pomo-bot: the command core of a Twitch task bot, in Dafny

twitch-pomo-bot is a Twitch chat bot. Viewers use it to announce what
task they are working on. A chat line that starts with the command prefix is a
command. `!task add <name>` files a task for the sender. `!task edit <name>`
renames it. `!task done` / `!task complete` finish it, and `!task delete` /
`!task cancel` drop it. The bot replies with a configured template in which
`%COMMAND_PREFIX%`, `%USER_ID%`, `%USER_NAME%` and `%TASK_NAME%` are filled
in. After every handled command except a help reply it rewrites
`tasks.txt` with one `<display name>: <task name>` line per current task.

This project models that core (`internal/bot/bot.go` and
`internal/bot/task.go`) and proves what it promises:

- `Tasks` (task.go): the `User` and `Task` records, `newTask` and
  `Task.String`, with a reader `ParseLine` that proves the file format is
  unambiguous for display names without ':'.
- `Registry`: the user-id-to-task map and the success and failure rules of
  AddTask, EditTask and RemoveTask, as pure functions. It also holds the
  invariant "every task is filed under its owner's id", which gives one task
  per user.
- `Templates`: `strings.NewReplacer(pairs...).Replace(template)`. This is
  one left-to-right, non-recursive pass in which the earliest argument pair
  whose key starts the remaining text wins.
- `Commands`: the prefix test, `message[1:]`, `strings.Split` on `" "`,
  ASCII `strings.ToLower` and `strings.Join`, plus their round trips.
- `TasksFile`: the contents of one rewrite of the file, as a multiset of
  rendered lines, because Go's map order is unspecified.
- `Dispatch`: `onPrivateMessage` / `onCommandMessage` as a pure decision
  tree. Each message yields an outcome: the new registry, the reply
  (template and pairs, or none), and whether the file is rewritten.
- `DispatchProperties`: each branch's behaviour, the aliases, rendering
  facts, and end-to-end chat lines under the stock prefix `!` and the stock
  "added" template of `internal/config/config.go`.
- `Bot`: the `Bot` object as a class. Its `tasks` map, the lines of the
  tasks file and the log of sent replies are fields updated in place.
  - `AddTask`, `EditTask`, `RemoveTask` and the write loop of
    `UpdateTasksFile` are methods.
  - `onPrivateMessage` / `onCommandMessage` are methods that follow the Go
    control flow, `return`s included. They are proved equal to the
    `Dispatch` functions.

The Go program behaves as follows, and the model keeps each behaviour:

- Only one character is stripped after a matching prefix, however long the
  prefix is.
- `%USER_NAME%` is bound to the login name, not the display name.
- Every help reply (no subcommand, a missing task name, an unknown
  subcommand) returns before the file is rewritten.
- A prefixed command other than `task` sends nothing and changes nothing,
  but still rewrites the file.
- Splitting on a single space keeps empty tokens, so `!task add ` adds a
  task with an empty name.

## Model

| member | source | states |
|---|---|---|
| Tasks.NewTask | internal/bot/task.go:19-27 | the new task holds exactly the sender's id and display name and the given name |
| Tasks.NewTaskIgnoresLoginName | internal/bot/task.go:19-27 | two senders with the same id and display name get the same task, whatever their login names |
| Tasks.String | internal/bot/task.go:29-31 | renders one file line; it carries no contract of its own, and its layout and round trip are stated by Tasks.StringLayout and Tasks.ParseString |
| Tasks.StringLayout | internal/bot/task.go:29-31 | the line is the display name, ": ", its task name and a newline; its length is the two names' lengths plus 3, even for an empty name |
| Tasks.IndexOfColon | internal/bot/task.go:30 | helper of the reader ParseLine, which inverts this line's format (it models no Go code): finds the first ':' of a line, or reports that there is none |
| Tasks.ParseString | internal/bot/task.go:29-31 | a rendered line reads back to its display name and task name when the display name has no ':' |
| Tasks.StringInjective | internal/bot/task.go:29-31 | two such tasks render to the same line only if display name and task name agree |
| Tasks.ColonMakesLinesAmbiguous | internal/bot/task.go:30 | a display name with ':' makes two different tasks render to the same line, so the colon-free condition of ParseString is needed |
| Registry.KeysMatchOneTaskPerUser | internal/bot/bot.go:64-68 | filing each task under its owner's id means no user has two tasks |
| Registry.Add | internal/bot/bot.go:60-70 | succeeds iff the user has no task; on failure the map is unchanged; on success exactly that key is added, mapped to newTask; other entries kept; key invariant kept |
| Registry.Edit | internal/bot/bot.go:72-83 | succeeds iff the user has a task; on failure the map is unchanged; on success only that entry's name changes, its owner stays; key invariant kept |
| Registry.Remove | internal/bot/bot.go:85-97 | succeeds iff the user has a task; returns the stored task; the key is gone and all other entries are untouched; key invariant kept |
| Registry.AddTwice | internal/bot/bot.go:64-66 | a second add for the same user fails and keeps the first task's name |
| Registry.AddThenRemove | internal/bot/bot.go:60-97 | remove right after add returns the added task and restores the map; a second remove fails |
| Templates.KeyShape | internal/bot/bot.go:121-125 | every key is a name between two '%' with no '%' inside |
| Templates.Replace | internal/bot/bot.go:42 | Replacer.Replace as one left-to-right pass; it carries no contract of its own, and what it does is stated by Templates.ReplaceKey, Templates.ReplaceUnboundKey, Templates.UnmatchedPrefix and the lemmas after them |
| Templates.FirstMatch | internal/bot/bot.go:41-43 | the index of the earliest pair whose key starts the text; no earlier pair's key does |
| Templates.Lookup | internal/bot/bot.go:121-125 | a placeholder has a value iff some pair names it, and the value is one such pair's |
| Templates.LookupConcat | internal/bot/bot.go:146 | appending pairs never overrides an earlier binding of the same key |
| Templates.KeyMatchUnique | internal/bot/bot.go:121-125 | no key is a prefix of another key followed by any text |
| Templates.FirstMatchAtKey | internal/bot/bot.go:41-43 | at a key, a pair matches iff the key is bound, and the match is the earliest pair naming it |
| Templates.ReplaceKey | internal/bot/bot.go:41-43 | a bound key is replaced by its value and scanning resumes after it: the value is never rescanned |
| Templates.ReplaceUnboundKey | internal/bot/bot.go:41-43 | an unbound key is copied up to its closing '%', which may still open a bound key that follows |
| Templates.UnmatchedPrefix | internal/bot/bot.go:41-43 | text at whose positions no bound key starts is copied unchanged |
| Templates.ReplaceLiteral | internal/bot/bot.go:41-43 | text without '%' is copied unchanged ahead of the rendering of the rest |
| Templates.NoKeyAtNonPercent | internal/bot/bot.go:41-43 | no key matches where the text does not start with '%' |
| Templates.ReplaceNoPlaceholders | internal/bot/bot.go:41-43 | a template with no '%' is rendered unchanged |
| Templates.ReplaceUnboundAlone | internal/bot/bot.go:41-43 | a template that is only an unbound key is rendered unchanged |
| Templates.ReplaceLonePercent | internal/bot/bot.go:41-43 | a lone '%' is copied through |
| Templates.ReplaceOne | internal/bot/bot.go:41-43 | one bound key between '%'-free texts is replaced by exactly its value |
| Templates.ReplaceKeyThenLiteral | internal/bot/bot.go:41-43 | a bound key followed by '%'-free text renders as the value, then the text |
| Templates.ReplaceNoBindings | internal/bot/bot.go:41-43 | with no pairs every template is rendered unchanged |
| Commands.LowerChar | internal/bot/bot.go:116 | upper-case ASCII letters map to lower case; every other character is kept |
| Commands.Lower | internal/bot/bot.go:116 | same length, pointwise ASCII lower-casing, no upper-case letter left |
| Commands.LowerOfLower | internal/bot/bot.go:135 | lower-casing keeps a string with no upper-case letter |
| Commands.LowerIdempotent | internal/bot/bot.go:135 | lower-casing twice is lower-casing once |
| Commands.Split | internal/bot/bot.go:114 | always at least one token, and no token holds the separator |
| Commands.Join | internal/bot/bot.go:145 | strings.Join with one space; it carries no contract of its own, and Commands.JoinSplit and Commands.SplitJoin state that it inverts Split |
| Commands.JoinSplit | internal/bot/bot.go:114 | joining the tokens of a split gives back the text |
| Commands.SplitJoin | internal/bot/bot.go:145 | splitting a join of separator-free tokens gives back the tokens |
| Commands.SplitFree | internal/bot/bot.go:114 | a text without the separator is one token |
| Commands.SplitAppend | internal/bot/bot.go:114 | splitting "t sep u", with no separator in t, gives t followed by the tokens of u |
| Commands.ParseCommand | internal/bot/bot.go:113-116 | a command iff the line starts with the prefix; then the line minus its first character is some space-free token followed by the arguments joined with single spaces, and the command is that token lower-cased; the arguments are space-free |
| Commands.ParseCommandJoin | internal/bot/bot.go:113-116 | for a prefix of any length, a line that starts with it and is one character followed by space-free tokens joined with spaces parses back to the first token lower-cased and the other tokens |
| Commands.LongPrefixKeepsRest | internal/bot/bot.go:113-114 | with prefix "!!", "!!task" is the command "!task" |
| Commands.TrailingSpaceGivesEmptyToken | internal/bot/bot.go:114 | "!task add " has the arguments "add" and "", so its task name is empty |
| TasksFile.Lines | internal/bot/bot.go:55-56 | one rendered line per registry key |
| TasksFile.Snapshot | internal/bot/bot.go:55-57 | the multiset of lines one rewrite writes; it carries no contract of its own, and its contents are stated by TasksFile.SnapshotLines and TasksFile.SnapshotSize |
| TasksFile.ValuesRemove | internal/bot/bot.go:55-57 | any entry can be written first: the file's contents do not depend on map order |
| TasksFile.ValuesMember | internal/bot/bot.go:55-57 | a value is in the multiset iff some key maps to it |
| TasksFile.ValuesSize | internal/bot/bot.go:55-57 | one value per key |
| TasksFile.SnapshotRemove | internal/bot/bot.go:55-57 | any task's line can be taken out of the file first |
| TasksFile.SnapshotSize | internal/bot/bot.go:55-57 | the file has exactly one line per task |
| TasksFile.SnapshotLines | internal/bot/bot.go:55-57 | a line is in the file iff some current task renders to it |
| TasksFile.SnapshotHas | internal/bot/bot.go:55-57 | every current task's line is in the file |
| TasksFile.SnapshotAfterAdd | internal/bot/bot.go:60-70 | a successful add adds exactly the new task's line to the file |
| TasksFile.SnapshotAfterEdit | internal/bot/bot.go:72-83 | a successful edit replaces that user's old line with the renamed one |
| TasksFile.SnapshotAfterRemove | internal/bot/bot.go:85-97 | a successful remove drops exactly the removed task's line |
| TasksFile.Restrict | internal/bot/bot.go:55 | the entries not yet written by the loop |
| TasksFile.RestrictAll | internal/bot/bot.go:55 | before the loop every entry remains |
| TasksFile.RestrictStep | internal/bot/bot.go:55-56 | writing one entry moves exactly its line from what remains to the file |
| TasksFile.RestrictNone | internal/bot/bot.go:55-57 | when no entry remains, nothing remains to write |
| TasksFile.SnapshotEmpty | internal/bot/bot.go:45-58 | an empty registry is written as an empty file |
| Dispatch.MessageVariables | internal/bot/bot.go:121-125 | binds the prefix, the sender's id and the sender's login name, and leaves %TASK_NAME% unbound |
| Dispatch.IsHelpRequest | internal/bot/bot.go:127-197 | the help cases: no subcommand, add or edit without a name, an unknown subcommand; it carries no contract of its own, and DispatchProperties.HelpBranch and Dispatch.OnCommandMessage state what they do |
| Dispatch.OnCommandMessage | internal/bot/bot.go:120-202 | no rewrite iff help reply; no reply iff the command is not "task"; help and non-task commands change nothing; only the sender's entry changes; owners never change; key invariant kept |
| Dispatch.OnPrivateMessage | internal/bot/bot.go:110-118 | a line without the prefix does nothing; key invariant kept |
| Dispatch.Run | internal/bot/bot.go:110-118 | after any sequence of messages every task is filed under its owner and no user has two tasks |
| DispatchProperties.HelpBranch | internal/bot/bot.go:127-198 | no subcommand, a missing task name or an unknown subcommand: help reply, no change, no rewrite |
| DispatchProperties.OtherCommand | internal/bot/bot.go:127-201 | a prefixed command other than "task": no reply, no change, rewrite |
| DispatchProperties.AddBranch | internal/bot/bot.go:138-153 | the name is the arguments joined by spaces; added reply and a new task when the user has none, else in-progress reply and no change |
| DispatchProperties.EditBranch | internal/bot/bot.go:154-169 | edited reply and that task renamed when the user has one, else no-task reply and no change |
| DispatchProperties.CompleteBranch | internal/bot/bot.go:170-181 | completed reply naming the removed task, or no-task reply and no change |
| DispatchProperties.CancelBranch | internal/bot/bot.go:182-193 | cancelled reply naming the removed task, or no-task reply and no change |
| DispatchProperties.Aliases | internal/bot/bot.go:170-193 | done/complete and delete/cancel behave identically in any letter case |
| DispatchProperties.AddedTaskIsInFile | internal/bot/bot.go:145-201 | after a successful add the rewritten file is the old one plus the new task's line |
| DispatchProperties.RenderAdded | internal/config/config.go:30 | the stock "added" template renders with the new name in place of %TASK_NAME% |
| DispatchProperties.RenderIsNotRecursive | internal/bot/bot.go:41-43 | a value that looks like a key is inserted literally |
| DispatchProperties.RenderUnbound | internal/bot/bot.go:121-125 | %TASK_NAME% survives unchanged in a reply that does not bind it |
| DispatchProperties.ParseAddLine | internal/bot/bot.go:113-116 | "!task add write report" is the command "task" with three arguments |
| DispatchProperties.ParseTaskLine | internal/bot/bot.go:113-116 | "!task" is the command "task" with no arguments |
| DispatchProperties.ParseDoneLine | internal/bot/bot.go:113-116 | "!task done" is the command "task" with the argument "done" |
| DispatchProperties.ScenarioAdd | internal/bot/bot.go:110-202 | "!task add write report" from a user without a task files a task, renders "Starting work on write report. Good luck!" and writes "Ann: write report" to the file |
| DispatchProperties.Dispatched | internal/bot/bot.go:113-116 | a line that parses to a command is handled exactly as that command |
| DispatchProperties.ScenarioAddOutcome | internal/bot/bot.go:110-202 | the registry change, reply and rewrite of that line |
| DispatchProperties.ScenarioHelp | internal/bot/bot.go:128-133 | "!task": help reply, no change, no rewrite |
| DispatchProperties.ScenarioDoneWithoutTask | internal/bot/bot.go:170-181 | "!task done" without a task: no-task reply, no change, rewrite |
| Bot.Sends | internal/bot/bot.go:41-43 | an outcome sends one reply to the configured channel, answering the message, whose text is its template rendered by Replace with its pairs, or none |
| Bot.Bot.constructor | internal/bot/bot.go:23-29 | a new bot has an empty registry and has sent nothing |
| Bot.Bot.Start | internal/bot/bot.go:31-39 | starting rewrites the file from the registry |
| Bot.Bot.Reply | internal/bot/bot.go:41-43 | appends the rendered template as a reply to the given message in the configured channel |
| Bot.Bot.UpdateTasksFile | internal/bot/bot.go:45-58 | when the file can be created it ends up holding exactly one line per current task, in some order; otherwise it is untouched |
| Bot.Bot.AddTask | internal/bot/bot.go:60-70 | true iff the user had no task; then exactly that entry is added, else nothing changes |
| Bot.Bot.EditTask | internal/bot/bot.go:72-83 | true iff the user has a task; then only its name changes, else nothing changes |
| Bot.Bot.RemoveTask | internal/bot/bot.go:85-97 | returns the stored task iff there was one and deletes exactly that entry |
| Bot.Bot.OnPrivateMessage | internal/bot/bot.go:110-118 | registry, sent replies and file end as Dispatch.OnPrivateMessage describes |
| Bot.Bot.OnCommandMessage | internal/bot/bot.go:120-202 | registry, sent replies and file end as Dispatch.OnCommandMessage describes |

## Left out

- The Twitch client is not modelled: connecting, joining, `Say`, `onConnect`, `onReconnect` and the transmission of replies. A reply is modelled as an entry appended to the `sent` log.
- `sync.RWMutex` is not modelled. Each registry operation is treated as atomic and sequential, because locking only matters under concurrency.
- `log.Printf` is not modelled, because logging has no effect on the state.
- File handles are not modelled. Whether `os.Create` succeeds is the parameter `createOk`. `WriteString` errors, which the source ignores, are not modelled.
- `main.go` and `internal/config/config.go` are not part of this model: stdin prompts, JSON loading and saving. Two stock values serve as fixtures: the prefix `!` and the "added" template.
- Bot.Bot.OnPrivateMessage, Dispatch.OnPrivateMessage and Commands.ParseCommand require a non-empty prefix or a non-empty message. With both empty, Go's `message.Message[1:]` panics, and the model does not model the panic.
- Dispatch.Run requires, for the same reason, a non-empty prefix or no empty message.
- Commands.Lower is ASCII-only, on strings whose characters each stand for one byte of the Go string. `strings.ToLower` also decodes UTF-8: it folds non-ASCII letters (U+212A KELVIN SIGN becomes `k`, so `!tas` followed by it is the task command in Go and another command here) and rewrites invalid UTF-8 to U+FFFD. The model does not capture either.
- Tasks are stored as values rather than `*Task` pointers. EditTask's write through the pointer is a map update, and no other alias exists.
- Tasks.ParseString and Tasks.StringInjective hold only for display names without ':'. Nothing in the bot rules such names out, and with one the file is ambiguous: display name "a: b" with task "c", and display name "a" with task "b: c", both give the line "a: b: c".
- The model keeps only the id, login name and display name of `twitch.User`. Colour, badges and the other fields of the message are not modelled.
