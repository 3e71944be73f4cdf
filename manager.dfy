/**
 * The command table: a fixed map from exact, case-sensitive tokens to the
 * registered commands, and the two dispatch overloads.
 */
module Manager {
  import opened Wrappers
  import opened Categories
  import opened Repository
  import opened Service
  import opened ViewTree
  import opened Commands

  /** The registered commands, one tag per kind of command object. */
  datatype CommandKind = ViewTreeKind | AddElementKind | RemoveElementKind | HelpKind | DownloadKind

  /** The reply for a token that is not registered. */
  const UnknownCommandText := "Неизвестная команда. Введите /help для получения списка доступных команд."

  /** What `/download` answers through the argument overload. */
  const DownloadArgsText := "This command requires user interaction and cannot be executed via text commands."

  /** `commands.get(name)`: the registered command, or null. */
  function Lookup(commands: map<string, CommandKind>, name: string): (r: Option<CommandKind>)
    ensures r.None? <==> name !in commands
    ensures r.Some? ==> name in commands && commands[name] == r.value
  {
    if name in commands then Some(commands[name]) else None
  }

  /**
   * `executeCommand(name, args)`: the store afterwards and the reply, given
   * the looked-up command and the text the help command answers with.
   */
  function DispatchArgs(s: Store, helpText: string, command: Option<CommandKind>, args: seq<string>): (r: (Store, string))
    requires Valid(s)
    ensures Valid(r.0)
    ensures command.None? ==> r == (s, UnknownCommandText)
    ensures command != Some(AddElementKind) && command != Some(RemoveElementKind) ==> r.0 == s
    ensures command == Some(ViewTreeKind) ==> r.1 == Render(FindAll(s))
    ensures command == Some(HelpKind) ==> r.1 == helpText
    ensures command == Some(DownloadKind) ==> r.1 == DownloadArgsText
    ensures command == Some(AddElementKind) ==> r == AddElement(s, args)
    ensures command == Some(RemoveElementKind) ==> r == RemoveElement(s, args)
  {
    match command
    case None => (s, UnknownCommandText)
    case Some(ViewTreeKind) => (s, Render(FindAll(s)))
    case Some(AddElementKind) => AddElement(s, args)
    case Some(RemoveElementKind) => RemoveElement(s, args)
    case Some(HelpKind) => (s, helpText)
    case Some(DownloadKind) => (s, DownloadArgsText)
  }

  /** The table the constructor builds, one `put` per registered command. */
  function RegisteredTable(): map<string, CommandKind>
  {
    map[]["/viewTree" := ViewTreeKind]["/addElement" := AddElementKind]
         ["/removeElement" := RemoveElementKind]["/help" := HelpKind]["/download" := DownloadKind]
  }

  /**
   * Exactly five tokens are registered, each to its own command; `/upload`
   * and tokens differing only in case are unknown.
   */
  lemma RegisteredTokens()
    ensures RegisteredTable().Keys == {"/viewTree", "/addElement", "/removeElement", "/help", "/download"}
    ensures |RegisteredTable()| == 5
    ensures "/upload" !in RegisteredTable() && "/viewtree" !in RegisteredTable()
    ensures RegisteredTable()["/viewTree"] == ViewTreeKind
    ensures RegisteredTable()["/addElement"] == AddElementKind
    ensures RegisteredTable()["/removeElement"] == RemoveElementKind
    ensures RegisteredTable()["/help"] == HelpKind
    ensures RegisteredTable()["/download"] == DownloadKind
  {
    var t := RegisteredTable();
    assert "/viewTree" != "/addElement" by { assert "/viewTree"[1] != "/addElement"[1]; }
    assert "/viewTree"[5] != "/viewtree"[5];
    assert "/upload"[1] == 'u';
  }

  class CommandManager {
    /** The token table; the constructor fills it and nothing changes it afterwards. */
    var commands: map<string, CommandKind>
    const service: CategoryService
    const viewTree: ViewTreeCommand
    const addElement: AddElementCommand
    const removeElement: RemoveElementCommand
    /** What `/help` answers; the help command itself is not part of this model. */
    const helpText: string

    /** The constructor registers exactly five tokens; `/upload` is not one of them. */
    constructor (service: CategoryService, helpText: string)
      ensures this.service == service && this.helpText == helpText
      ensures viewTree.service == service && addElement.service == service
      ensures removeElement.service == service
      ensures commands == RegisteredTable()
    {
      this.service := service;
      this.helpText := helpText;
      viewTree := new ViewTreeCommand(service);
      addElement := new AddElementCommand(service);
      removeElement := new RemoveElementCommand(service);
      new;
      commands := map[];
      commands := commands["/viewTree" := ViewTreeKind];
      commands := commands["/addElement" := AddElementKind];
      commands := commands["/removeElement" := RemoveElementKind];
      commands := commands["/help" := HelpKind];
      commands := commands["/download" := DownloadKind];
    }

    /** The objects the commands were built over all share one service. */
    ghost predicate Wired()
      reads this
    {
      viewTree.service == service && addElement.service == service
      && removeElement.service == service
    }

    /** `executeCommand(commandName, args)`. */
    method ExecuteCommand(commandName: string, args: seq<string>) returns (reply: string)
      requires Wired() && service.repository.Valid()
      modifies service.repository
      ensures service.repository.Valid()
      ensures (service.repository.State(), reply)
           == DispatchArgs(old(service.repository.State()), helpText, Lookup(commands, commandName), args)
    {
      var command := Lookup(commands, commandName);
      match command
      case None =>
        reply := UnknownCommandText;
      case Some(ViewTreeKind) =>
        reply := viewTree.Execute(args);
      case Some(AddElementKind) =>
        reply := addElement.Execute(args);
      case Some(RemoveElementKind) =>
        reply := removeElement.Execute(args);
      case Some(HelpKind) =>
        reply := helpText;
      case Some(DownloadKind) =>
        reply := DownloadArgsText;
    }

    /**
     * `executeCommand(commandName, update)`. What a registered command's
     * update overload answers is `outcome`; the only token routed here is
     * `/download`, whose answer is produced by Telegram and spreadsheet I/O.
     */
    method ExecuteCommandUpdate(commandName: string, outcome: string) returns (reply: string)
      ensures commandName in commands ==> reply == outcome
      ensures commandName !in commands ==> reply == UnknownCommandText
    {
      var command := Lookup(commands, commandName);
      if command.Some? {
        reply := outcome;
      } else {
        reply := UnknownCommandText;
      }
    }
  }
}
