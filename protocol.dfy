/** The server's wire texts and the classification of one received message
    into a command or a chat line (server.py, `handle_client`). */
module Protocol {
  import opened Wrappers
  import opened Text

  /** Sent on connect, before the username is read. */
  const UsernamePrompt := "Enter your username: "

  /** The two lines sent once the username is known. */
  function Welcome(username: string): string {
    "Welcome " + username + "! Use /create or /join <room_name> to start chatting.\n"
  }
  const HelpHint := "Type /help to see available commands.\n"

  const CreateUsage := "Usage: /create <room_name>\n"
  const JoinUsage := "Usage: /join <room_name>\n"
  const NotInRoom := "You're not in any room.\n"
  const Goodbye := "Goodbye!\n"
  const UnknownCommand := "Unknown command. Type /help for available options.\n"
  const JoinFirst := "Join a room first using /join <room_name>.\n"

  const HelpText :=
    "\nAvailable Commands:\n"
    + "/create <room_name>  - Create and join a room\n"
    + "/join <room_name>    - Join an existing room\n"
    + "/leave               - Leave the current room\n"
    + "/list                - List all active rooms\n"
    + "/admin               - View active users & rooms\n"
    + "/quit                - Disconnect from chat\n"
    + "/help                - Show this help message\n"

  function Created(room: string): string {
    "Created and joined room: " + room + "\n"
  }

  function Joined(room: string): string {
    "Joined room: " + room + "\n"
  }

  function NoSuchRoom(room: string): string {
    "Room '" + room + "' does not exist. Use /create to create it.\n"
  }

  function LeftRoom(room: string): string {
    "Left room: " + room + "\n"
  }

  /** Room notices and chat lines, as broadcast (without a line terminator). */
  function JoinedNotice(username: string): string {
    username + " joined the room."
  }

  function LeftNotice(username: string): string {
    username + " left the room."
  }

  function ChatLine(room: string, username: string, text: string): string {
    "[" + room + "] " + username + ": " + text
  }

  /** Server log lines written besides the broadcasts (the timestamp prefix is
      not modelled). */
  function ConnectedEntry(username: string): string {
    username + " connected."
  }

  function DisconnectedEntry(username: string): string {
    username + " disconnected."
  }

  /** The `/list` reply: `', '.join(rooms.keys()) or "No active rooms."`. */
  function RoomList(names: seq<string>): string {
    var joined := Join(names, ", ");
    "Available rooms: " + (if joined == "" then "No active rooms." else joined) + "\n"
  }

  /** One line of the `/admin` room status: `f"{room}: {len(sockets)} user(s)"`. */
  function RoomStatus(room: string, count: nat): string {
    room + ": " + NatToString(count) + " user(s)"
  }

  /** The `/admin` reply, from the usernames and the room status lines. */
  function AdminPanel(usernames: seq<string>, statusLines: seq<string>): string {
    "\n[ADMIN PANEL]\nUsers: " + Join(usernames, ", ") + "\nRooms:\n" + Join(statusLines, "\n") + "\n"
  }

  /** A received message is command text exactly when it starts with '/'
      (`msg.startswith('/')`, tested before any stripping). */
  predicate IsCommandLine(msg: string) {
    |msg| > 0 && msg[0] == '/'
  }

  /** What one received message asks for. `room` is `parts[1]` when the
      message has a second word; further words are ignored. */
  datatype Command =
    | CreateRoom(room: Option<string>)
    | JoinRoom(room: Option<string>)
    | LeaveRoom
    | ListRooms
    | ShowAdmin
    | ShowHelp
    | QuitSession
    | Unknown(verb: string)
    | Chat(text: string)

  const Verbs: set<string> := {"/create", "/join", "/leave", "/list", "/admin", "/help", "/quit"}

  /** The command-dispatch chain on `parts = msg.strip().split()`. */
  function Classify(parts: seq<string>): (cmd: Command)
    requires |parts| > 0
    ensures !cmd.Chat?
    ensures cmd.Unknown? <==> parts[0] !in Verbs
    ensures cmd.Unknown? ==> cmd.verb == parts[0]
    ensures (cmd.CreateRoom? || cmd.JoinRoom?) ==> cmd.room == (if |parts| < 2 then None else Some(parts[1]))
  {
    var verb := parts[0];
    var arg := if |parts| < 2 then None else Some(parts[1]);
    if verb == "/create" then CreateRoom(arg)
    else if verb == "/join" then JoinRoom(arg)
    else if verb == "/leave" then LeaveRoom
    else if verb == "/list" then ListRooms
    else if verb == "/admin" then ShowAdmin
    else if verb == "/help" then ShowHelp
    else if verb == "/quit" then QuitSession
    else Unknown(verb)
  }

  /** A message that starts with '/' has at least one word after stripping,
      and that word starts with '/': `parts[0]` always exists. */
  lemma CommandWords(msg: string)
    requires IsCommandLine(msg)
    ensures var parts := Words(Strip(msg)); |parts| > 0 && parts[0][0] == '/'
  {
    var r := Strip(msg);
    StripSlice(msg);
    assert LeadingSpace(msg) == 0;
    assert !IsSpace(msg[0]);
    assert r != [] && r[0] == '/';
    WordsHead(r);
  }

  /** Classification of one received message. */
  function Parse(msg: string): (cmd: Command)
    ensures cmd.Chat? <==> !IsCommandLine(msg)
    ensures cmd.Chat? ==> cmd.text == msg
    ensures (cmd.CreateRoom? || cmd.JoinRoom?) && cmd.room.Some? ==> IsToken(cmd.room.value)
    ensures cmd.Unknown? ==> IsToken(cmd.verb) && cmd.verb[0] == '/' && cmd.verb !in Verbs
  {
    if IsCommandLine(msg) then
      CommandWords(msg);
      var parts := Words(Strip(msg));
      assert AllTokens(parts);
      Classify(parts)
    else
      Chat(msg)
  }

  /** Dispatch round trip: a command typed as words separated by single spaces
      is classified on exactly those words. */
  lemma ParseTyped(ws: seq<string>)
    requires AllTokens(ws) && |ws| > 0 && ws[0][0] == '/'
    ensures Parse(Join(ws, " ")) == Classify(ws)
  {
    var line := Join(ws, " ");
    JoinEnds(ws, " ");
    var last := ws[|ws| - 1];
    assert line[0] == ws[0][0];
    assert line[|line| - 1] == last[|last| - 1];
    StripUnpadded(line);
    WordsOfJoin(ws);
  }

  /** `/list` answers "No active rooms." exactly when there is no room name to
      list, provided no room name is empty. */
  lemma RoomListPlaceholder(names: seq<string>)
    requires forall i | 0 <= i < |names| :: names[i] != []
    ensures RoomList(names)
      == "Available rooms: " + (if names == [] then "No active rooms." else Join(names, ", ")) + "\n"
  {
    if names != [] {
      JoinNonEmpty(names, ", ");
    }
  }
}
