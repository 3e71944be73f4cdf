/**
 * `onUpdateReceived`: a text message is split into a command token and
 * arguments with the semantics of Java's `String.split`, routed through the
 * command table, and answered with exactly one message to the same chat.
 */
module Bot {
  import opened Wrappers
  import opened Categories
  import opened Repository
  import opened Service
  import opened Manager

  // ---- Java's String.split on a single space ----

  /** The pieces of `s` between single spaces, empty pieces included. */
  function Pieces(s: string): (r: seq<string>)
    ensures |r| >= 1
    decreases |s|
  {
    if s == [] then [""]
    else if s[0] == ' ' then [""] + Pieces(s[1..])
    else
      var rest := Pieces(s[1..]);
      [[s[0]] + rest[0]] + rest[1..]
  }

  /** Pieces put back together with one space between neighbours. */
  function Join(ps: seq<string>): string
  {
    if ps == [] then ""
    else if |ps| == 1 then ps[0]
    else ps[0] + " " + Join(ps[1..])
  }

  /** Splitting at every space loses nothing: joining the pieces gives back `s`, and no piece holds a space. */
  lemma {:induction false} PiecesJoin(s: string)
    ensures Join(Pieces(s)) == s
    ensures forall i | 0 <= i < |Pieces(s)| :: ' ' !in Pieces(s)[i]
    decreases |s|
  {
    if s != [] {
      var rest := Pieces(s[1..]);
      PiecesJoin(s[1..]);
      if s[0] == ' ' {
        JoinAfterSpace(rest);
      } else {
        JoinFront(s[0], rest);
        NoSpaceFront(s[0], rest);
      }
      assert s == [s[0]] + s[1..];
    }
  }

  /** An empty piece in front adds one leading space. */
  lemma JoinAfterSpace(ps: seq<string>)
    requires |ps| >= 1
    ensures Join([""] + ps) == " " + Join(ps)
  {
    assert ([""] + ps)[1..] == ps;
  }

  /** A character put in front of the first piece is put in front of the joined text. */
  lemma JoinFront(c: char, ps: seq<string>)
    requires |ps| >= 1
    ensures Join([[c] + ps[0]] + ps[1..]) == [c] + Join(ps)
  {
    var qs := [[c] + ps[0]] + ps[1..];
    if |ps| > 1 {
      assert qs[1..] == ps[1..];
    }
  }

  /** A character other than a space put in front of the first piece keeps every piece free of spaces. */
  lemma NoSpaceFront(c: char, ps: seq<string>)
    requires c != ' ' && |ps| >= 1
    requires forall i | 0 <= i < |ps| :: ' ' !in ps[i]
    ensures forall i | 0 <= i < |ps| :: ' ' !in ([[c] + ps[0]] + ps[1..])[i]
  {
    var qs := [[c] + ps[0]] + ps[1..];
    forall i | 0 <= i < |ps|
      ensures ' ' !in qs[i]
    {
      if i > 0 {
        assert qs[i] == ps[i];
      }
    }
  }

  /** `split` without a limit drops every trailing empty string. */
  function DropTrailingEmpty(ps: seq<string>): (r: seq<string>)
    ensures |r| <= |ps| && r == ps[..|r|]
    ensures r != [] ==> r[|r| - 1] != ""
    ensures forall i | |r| <= i < |ps| :: ps[i] == ""
  {
    if ps != [] && ps[|ps| - 1] == "" then DropTrailingEmpty(ps[..|ps| - 1]) else ps
  }

  /**
   * `s.split(" ")`: a string with no space is the only element; otherwise
   * the pieces between spaces, less the trailing empty ones.
   */
  function JavaSplit(s: string): seq<string>
  {
    if ' ' !in s then [s] else DropTrailingEmpty(Pieces(s))
  }

  /**
   * No element of `s.split(" ")` holds a space; it is `[s]` when `s` has no
   * space, in particular `[""]` for the empty string; otherwise its elements
   * are, in order, the pieces of `s` between spaces, and only empty pieces
   * at the end are missing.
   */
  lemma JavaSplitFacts(s: string)
    ensures forall i | 0 <= i < |JavaSplit(s)| :: ' ' !in JavaSplit(s)[i]
    ensures ' ' !in s ==> JavaSplit(s) == [s]
    ensures JavaSplit("") == [""]
    ensures ' ' in s ==>
      && |JavaSplit(s)| <= |Pieces(s)| && JavaSplit(s) == Pieces(s)[..|JavaSplit(s)|]
      && (forall i | |JavaSplit(s)| <= i < |Pieces(s)| :: Pieces(s)[i] == "")
      && (JavaSplit(s) != [] ==> JavaSplit(s)[|JavaSplit(s)| - 1] != "")
  {
    PiecesJoin(s);
  }

  /** The position of the first space, if any. */
  function FirstSpace(s: string): (r: Option<nat>)
    ensures r.None? <==> ' ' !in s
    ensures r.Some? ==> r.value < |s| && s[r.value] == ' ' && ' ' !in s[..r.value]
  {
    if s == [] then None
    else if s[0] == ' ' then Some(0)
    else match FirstSpace(s[1..])
      case None => None
      case Some(i) =>
        assert s[..i + 1] == [s[0]] + s[1..][..i];
        Some(i + 1)
  }

  /**
   * `split(" ", 2)` then `split(" ")` of the remainder: the command token is
   * the text before the first space, or the whole text; the arguments are
   * none when there is no space, otherwise the split of what follows it.
   */
  function Tokenise(text: string): (r: (string, seq<string>))
    ensures ' ' !in r.0
    ensures ' ' !in text ==> r == (text, [])
    ensures ' ' in text ==>
      && |r.0| < |text| && text[..|r.0|] == r.0 && text[|r.0|] == ' '
      && r.1 == JavaSplit(text[|r.0| + 1..])
  {
    match FirstSpace(text)
    case None => (text, [])
    case Some(i) => (text[..i], JavaSplit(text[i + 1..]))
  }

  /** A command followed by a single space gets one empty argument. */
  lemma TrailingSpaceGivesEmptyArgument(name: string)
    requires ' ' !in name
    ensures Tokenise(name + " ") == (name, [""])
  {
    var text := name + " ";
    assert text[|name|] == ' ';
    assert text[..|name|] == name;
    assert text[|name| + 1..] == "";
  }

  // ---- Updates and replies ----

  /** A Telegram message: its chat, and its text and document when present. */
  datatype Message = Message(chatId: int, text: Option<string>, document: Option<string>)

  /** A Telegram update, with or without a message. */
  datatype Update = Update(message: Option<Message>)

  /** One message the bot sends. */
  datatype Outgoing = Outgoing(chatId: int, text: string)

  /** The only token routed to the update overload. */
  const DownloadToken := "/download"

  /** Whether the update carries a text message. */
  predicate HasText(update: Update)
  {
    update.message.Some? && update.message.value.text.Some?
  }

  /**
   * `onUpdateReceived`: the store afterwards and the message sent, given
   * the command table, the help text and what `/download` answers.
   */
  function HandleUpdate(s: Store, commands: map<string, CommandKind>, helpText: string,
                        downloadOutcome: string, update: Update): (r: (Store, Option<Outgoing>))
    requires Valid(s)
    ensures Valid(r.0)
    ensures r.1.Some? <==> HasText(update)
    ensures !HasText(update) ==> r.0 == s
    ensures HasText(update) ==> r.1.value.chatId == update.message.value.chatId
    ensures HasText(update) && Tokenise(update.message.value.text.value).0 == DownloadToken ==>
      && r.0 == s
      && r.1.value.text == (if DownloadToken in commands then downloadOutcome else UnknownCommandText)
    ensures HasText(update) && Tokenise(update.message.value.text.value).0 != DownloadToken ==>
      var (name, args) := Tokenise(update.message.value.text.value);
      (r.0, r.1.value.text) == DispatchArgs(s, helpText, Lookup(commands, name), args)
  {
    if !HasText(update) then (s, None)
    else
      var message := update.message.value;
      var (name, args) := Tokenise(message.text.value);
      if name == DownloadToken then
        (s, Some(Outgoing(message.chatId,
                          if Lookup(commands, name).Some? then downloadOutcome else UnknownCommandText)))
      else
        var (after, reply) := DispatchArgs(s, helpText, Lookup(commands, name), args);
        (after, Some(Outgoing(message.chatId, reply)))
  }

  class CategoryBot {
    const manager: CommandManager

    constructor (service: CategoryService, helpText: string)
      ensures manager.service == service && manager.helpText == helpText
      ensures manager.Wired() && manager.commands == RegisteredTable()
    {
      manager := new CommandManager(service, helpText);
    }

    /**
     * `onUpdateReceived(update)`. The reply is returned instead of sent;
     * `downloadOutcome` stands for what the `/download` command answers.
     */
    method OnUpdateReceived(update: Update, downloadOutcome: string) returns (sent: Option<Outgoing>)
      requires manager.Wired() && manager.service.repository.Valid()
      modifies manager.service.repository
      ensures manager.service.repository.Valid()
      ensures (manager.service.repository.State(), sent)
           == HandleUpdate(old(manager.service.repository.State()), manager.commands,
                           manager.helpText, downloadOutcome, update)
    {
      if update.message.Some? && update.message.value.text.Some? {
        var message := update.message.value.text.value;
        var parts := Tokenise(message);
        var commandName := parts.0;
        var args := parts.1;
        var response;
        if commandName == DownloadToken {
          response := manager.ExecuteCommandUpdate(commandName, downloadOutcome);
        } else {
          response := manager.ExecuteCommand(commandName, args);
        }
        sent := Some(Outgoing(update.message.value.chatId, response));
      } else {
        sent := None;
      }
    }
  }
}
