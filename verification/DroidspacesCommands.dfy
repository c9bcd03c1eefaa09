/**
  The nested commands of native/src/droidspaces.rs: the attachment check
  (232-244), the terminal command (278-313) and the X11 command (315-350).
  Each level is a word of the level above and is read again by another shell.
 */
module DroidspacesCommands {
  import opened Common
  import opened ShellQuoting

  const BINARY := "/data/local/Droidspaces/bin/droidspaces"

  function Q(value: string): Piece {
    Prefixed("", value)
  }

  /* ---------- fixed words ---------- */

  lemma PlainConcat(s: string, t: string)
    requires PlainText(s) && PlainText(t)
    ensures PlainText(s + t)
  {
  }

  lemma ShortWords()
    ensures PlainText("") && PlainText("run") && PlainText("enter") && PlainText("exec") && PlainText("export")
    ensures PlainText("test") && PlainText("-S") && PlainText("-c") && PlainText("-lc") && PlainText("-l")
    ensures PlainText("-w") && PlainText("-u")
  {
  }

  lemma OptionWords()
    ensures PlainText("--name=") && PlainText("--user=") && PlainText("/bin/sh") && PlainText("DISPLAY=:0")
  {
  }

  lemma ProgramWords()
    ensures PlainText("/usr/bin/env") && PlainText("/usr/bin/su") && PlainText("LANG=C.UTF-8")
  {
  }

  lemma LongerWords()
    ensures PlainText("TERM=xterm-256color") && PlainText("XDG_RUNTIME_DIR=") && PlainText("XDG_SESSION_TYPE=x11")
  {
  }

  lemma VariableWords()
    ensures PlainText("WAYLAND_DISPLAY") && PlainText("QT_QPA_PLATFORM") && PlainText("QT_QUICK_BACKEND")
  {
  }

  function Commas(names: seq<string>): string {
    Join(names, ",")
  }

  lemma {:induction false} CommasPlain(names: seq<string>)
    requires forall i :: 0 <= i < |names| ==> PlainText(names[i])
    ensures PlainText(Commas(names))
  {
    if |names| > 1 {
      var fewer := names[..|names| - 1];
      CommasPlain(fewer);
      assert PlainText(",");
      PlainConcat(Commas(fewer), ",");
      PlainConcat(Commas(fewer) + ",", names[|names| - 1]);
    }
  }

  const AUDIO_NAMES := ["PIPEWIRE_RUNTIME_DIR", "PIPEWIRE_REMOTE", "PULSE_SERVER"]

  const SESSION_NAMES := ["DISPLAY", "XDG_SESSION_TYPE", "XDG_RUNTIME_DIR", "QT_QUICK_BACKEND"]

  const RENDER_NAMES := ["LIBGL_ALWAYS_SOFTWARE", "GALLIUM_DRIVER", "MESA_LOADER_DRIVER_OVERRIDE",
                         "VTEST_SOCKET_NAME", "VTEST_RENDERER_SOCKET_NAME", "LD_PRELOAD"]

  /** The variables that the login `su` of an X11 session preserves. */
  function Preserved(): string {
    Commas([Commas(SESSION_NAMES), Commas(RENDER_NAMES), Commas(AUDIO_NAMES), "TERM"])
  }

  lemma AudioPlain()
    ensures PlainText(Commas(AUDIO_NAMES)) && Commas(AUDIO_NAMES) != ""
  {
    assert PlainText("PIPEWIRE_RUNTIME_DIR");
    assert PlainText("PIPEWIRE_REMOTE");
    assert PlainText("PULSE_SERVER");
    CommasPlain(AUDIO_NAMES);
    assert |Commas(AUDIO_NAMES)| >= 1;
  }

  lemma SessionPlain()
    ensures PlainText(Commas(SESSION_NAMES))
  {
    assert PlainText("DISPLAY");
    assert PlainText("XDG_SESSION_TYPE");
    assert PlainText("XDG_RUNTIME_DIR");
    assert PlainText("QT_QUICK_BACKEND");
    CommasPlain(SESSION_NAMES);
  }

  lemma RenderPlain()
    ensures PlainText(Commas(RENDER_NAMES))
  {
    RenderPlainA();
    RenderPlainB();
    CommasPlain(RENDER_NAMES);
  }

  lemma RenderPlainA()
    ensures PlainText("LIBGL_ALWAYS_SOFTWARE") && PlainText("GALLIUM_DRIVER") && PlainText("LD_PRELOAD")
  {
  }

  lemma RenderPlainB()
    ensures PlainText("MESA_LOADER_DRIVER_OVERRIDE") && PlainText("VTEST_SOCKET_NAME")
    ensures PlainText("VTEST_RENDERER_SOCKET_NAME")
  {
  }

  lemma PreservedPlain()
    ensures PlainText(Preserved()) && Preserved() != ""
  {
    SessionPlain();
    RenderPlain();
    AudioPlain();
    assert PlainText("TERM");
    CommasPlain([Commas(SESSION_NAMES), Commas(RENDER_NAMES), Commas(AUDIO_NAMES), "TERM"]);
    assert |Preserved()| >= 4;
  }

  /* ---------- existing_container_attachment_check ---------- */

  function TestPieces(socket: string): seq<Piece> {
    [Fixed("test"), Fixed("-S"), Q(socket)]
  }

  function TestCommands(sockets: seq<string>): seq<string> {
    seq(|sockets|, i requires 0 <= i < |sockets| => Command(TestPieces(sockets[i])))
  }

  function Tests(sockets: seq<string>): string {
    Join(TestCommands(sockets), " && ")
  }

  function TestTokens(sockets: seq<string>): seq<Token> {
    if sockets == [] then []
    else (if |sockets| == 1 then [] else TestTokens(sockets[..|sockets| - 1]) + [AndIf])
         + [Word("test"), Word("-S"), Word(sockets[|sockets| - 1])]
  }

  function CheckPieces(container: string, script: string): seq<Piece> {
    [Q(BINARY), Prefixed("--name=", container), Fixed("run"), Fixed("/bin/sh"), Fixed("-c"), Q(script)]
  }

  function AttachmentCheck(container: string, sockets: seq<string>): string {
    Command(CheckPieces(container, Tests(sockets)))
  }

  lemma TestLexes(socket: string)
    ensures Lex(Command(TestPieces(socket))) == Some([Word("test"), Word("-S"), Word(socket)])
  {
    ShortWords();
    CommandLexes(TestPieces(socket));
    TestMeans(socket);
  }

  lemma {:induction false} TestMeans(socket: string)
    ensures Meanings(TestPieces(socket)) == [Word("test"), Word("-S"), Word(socket)]
  {
    var ps := TestPieces(socket);
    TwoWords(Fixed("test"), Fixed("-S"));
    assert ps[..2] == [Fixed("test")] + [Fixed("-S")];
    assert Meanings(ps) == Meanings(ps[..2]) + Meaning(ps[2]);
    assert Meaning(ps[2]) == [Word("" + socket)] && "" + socket == socket;
  }

  lemma {:induction false} TwoWords(p: Piece, q: Piece)
    ensures Meanings([p] + [q]) == Meaning(p) + Meaning(q)
  {
    assert ([p] + [q])[..1] == [p] && [p][..0] == [];
    assert Meanings([p]) == Meaning(p);
  }

  lemma {:induction false} TestsTokens(sockets: seq<string>)
    ensures AllLex(TestCommands(sockets)) && JoinTokens(TestCommands(sockets), [AndIf]) == TestTokens(sockets)
  {
    forall i | 0 <= i < |sockets|
      ensures Lex(TestCommands(sockets)[i]) == Some([Word("test"), Word("-S"), Word(sockets[i])])
    {
      TestLexes(sockets[i]);
    }
    if |sockets| > 1 {
      var fewer := sockets[..|sockets| - 1];
      TestsTokens(fewer);
      assert TestCommands(sockets)[..|sockets| - 1] == TestCommands(fewer);
    }
  }

  lemma {:induction false} CheckWords(container: string, script: string)
    ensures Meanings(CheckPieces(container, script))
         == WordTokens([BINARY, "--name=" + container, "run", "/bin/sh", "-c", script])
  {
    var ps := CheckPieces(container, script);
    SingleWords(ps);
    assert "" + BINARY == BINARY && "" + script == script;
    assert WordsOf(ps) == [BINARY, "--name=" + container, "run", "/bin/sh", "-c", script];
  }

  /** The container and the whole script are one word each; two shells later every socket path is tested. */
  lemma AttachmentCheckMeans(container: string, sockets: seq<string>)
    ensures Lex(AttachmentCheck(container, sockets))
         == Some(WordTokens([BINARY, "--name=" + container, "run", "/bin/sh", "-c", Tests(sockets)]))
    ensures Lex(Tests(sockets)) == Some(TestTokens(sockets))
  {
    ShortWords();
    OptionWords();
    CommandLexes(CheckPieces(container, Tests(sockets)));
    CheckWords(container, Tests(sockets));
    AndSeparates();
    TestsTokens(sockets);
    JoinLexes(TestCommands(sockets), " && ", [AndIf]);
  }

  /* ---------- terminal_command ---------- */

  function Exports(): seq<Piece> {
    [Fixed("export"), Fixed("TERM=xterm-256color"), Fixed("LANG=C.UTF-8")]
  }

  function EnterPieces(container: string, user: string): seq<Piece> {
    [Fixed("exec"), Q(BINARY), Prefixed("--name=", container), Fixed("enter"), Q(user)]
  }

  function AudioPieces(container: string, script: string): seq<Piece> {
    [Fixed("exec"), Q(BINARY), Prefixed("--name=", container), Fixed("run"), Fixed("/bin/sh"), Fixed("-lc"), Q(script)]
  }

  function LaunchPieces(container: string, user: string, script: string): seq<Piece> {
    [Fixed("exec"), Q(BINARY), Prefixed("--name=", container), Prefixed("--user=", user),
     Fixed("run"), Fixed("/bin/sh"), Fixed("-lc"), Q(script)]
  }

  function AudioScript(user: string, audio: seq<string>): string {
    Command([Fixed("export"), Words(audio)]) + "; " + Command(SuPieces(user))
  }

  function SuPieces(user: string): seq<Piece> {
    [Fixed("exec"), Fixed("/usr/bin/su"), Fixed("-l"), Fixed("-w"), Fixed(Commas(AUDIO_NAMES)), Q(user)]
  }

  function LaunchScriptPieces(environment: seq<string>, argv: seq<string>): seq<Piece> {
    [Fixed("exec"), Fixed("/usr/bin/env"), Words(environment), Words(argv)]
  }

  function TerminalPieces(container: string, user: string, graphics: seq<string>, audio: seq<string>, argv: seq<string>): seq<Piece> {
    if argv == [] && audio == [] then EnterPieces(container, user)
    else if argv == [] then AudioPieces(container, AudioScript(user, audio))
    else LaunchPieces(container, user, Command(LaunchScriptPieces(graphics + audio, argv)))
  }

  function TerminalCommand(container: string, user: string, graphics: seq<string>, audio: seq<string>, argv: seq<string>): string {
    Command(Exports()) + "; " + Command(TerminalPieces(container, user, graphics, audio, argv))
  }

  lemma ExportsOk()
    ensures AllOk(Exports())
  {
    ShortWords();
    ProgramWords();
    LongerWords();
  }

  lemma OuterPiecesOk(container: string, user: string, script: string)
    ensures AllOk(EnterPieces(container, user)) && AllOk(AudioPieces(container, script))
    ensures AllOk(LaunchPieces(container, user, script))
  {
    ShortWords();
    OptionWords();
  }

  /** Whatever container, user and script are, the outer shell passes each on as one word. */
  lemma {:induction false} EnterWords(container: string, user: string)
    ensures Meanings(EnterPieces(container, user)) == WordTokens(["exec", BINARY, "--name=" + container, "enter", user])
  {
    var ps := EnterPieces(container, user);
    SingleWords(ps);
    assert "" + BINARY == BINARY && "" + user == user;
    assert WordsOf(ps) == ["exec", BINARY, "--name=" + container, "enter", user];
  }

  lemma {:induction false} RunWords(container: string, script: string)
    ensures Meanings(AudioPieces(container, script))
         == WordTokens(["exec", BINARY, "--name=" + container, "run", "/bin/sh", "-lc", script])
  {
    var ps := AudioPieces(container, script);
    SingleWords(ps);
    assert "" + BINARY == BINARY && "" + script == script;
    assert WordsOf(ps) == ["exec", BINARY, "--name=" + container, "run", "/bin/sh", "-lc", script];
  }

  lemma {:induction false} LaunchWords(container: string, user: string, script: string)
    ensures Meanings(LaunchPieces(container, user, script))
         == WordTokens(["exec", BINARY, "--name=" + container, "--user=" + user, "run", "/bin/sh", "-lc", script])
  {
    var ps := LaunchPieces(container, user, script);
    SingleWords(ps);
    assert "" + BINARY == BINARY && "" + script == script;
    assert WordsOf(ps) == ["exec", BINARY, "--name=" + container, "--user=" + user, "run", "/bin/sh", "-lc", script];
  }

  lemma {:induction false} ExportWords()
    ensures Meanings(Exports()) == WordTokens(["export", "TERM=xterm-256color", "LANG=C.UTF-8"])
  {
    SingleWords(Exports());
    assert WordsOf(Exports()) == ["export", "TERM=xterm-256color", "LANG=C.UTF-8"];
  }

  lemma {:induction false} SuWords(user: string)
    ensures Meanings(SuPieces(user)) == WordTokens(["exec", "/usr/bin/su", "-l", "-w", Commas(AUDIO_NAMES), user])
  {
    SingleWords(SuPieces(user));
    assert "" + user == user;
    assert WordsOf(SuPieces(user)) == ["exec", "/usr/bin/su", "-l", "-w", Commas(AUDIO_NAMES), user];
  }

  /** The script of the audio branch exports each variable and hands over to the user's login shell. */
  lemma AudioScriptMeans(user: string, audio: seq<string>)
    ensures Lex(AudioScript(user, audio)) ==
      Some(WordTokens(["export"] + audio) + [Semi]
           + WordTokens(["exec", "/usr/bin/su", "-l", "-w", Commas(AUDIO_NAMES), user]))
  {
    ShortWords();
    ProgramWords();
    AudioPlain();
    var ps := [Fixed("export"), Words(audio)];
    SequenceLexes(ps, SuPieces(user));
    SuWords(user);
    assert ps[..1] == [Fixed("export")];
    WordTokensConcat(["export"], audio);
    assert WordTokens(["export"]) == [Word("export")];
  }

  /** The script of a launch is the guest program with its environment and arguments, word for word. */
  lemma LaunchScriptMeans(environment: seq<string>, argv: seq<string>)
    ensures Lex(Command(LaunchScriptPieces(environment, argv))) ==
      Some([Word("exec"), Word("/usr/bin/env")] + WordTokens(environment) + WordTokens(argv))
  {
    ShortWords();
    ProgramWords();
    CommandLexes(LaunchScriptPieces(environment, argv));
    LaunchMeans(environment, argv);
  }

  lemma {:induction false} LaunchMeans(environment: seq<string>, argv: seq<string>)
    ensures Meanings(LaunchScriptPieces(environment, argv)) ==
      [Word("exec"), Word("/usr/bin/env")] + WordTokens(environment) + WordTokens(argv)
  {
    var ps := LaunchScriptPieces(environment, argv);
    TwoWords(Fixed("exec"), Fixed("/usr/bin/env"));
    assert ps[..3][..2] == [Fixed("exec")] + [Fixed("/usr/bin/env")];
    assert Meanings(ps[..3]) == Meanings(ps[..3][..2]) + WordTokens(environment);
    assert Meanings(ps) == Meanings(ps[..3]) + WordTokens(argv);
  }

  /** What every terminal command starts with. */
  function ExportTokens(): seq<Token> {
    WordTokens(["export", "TERM=xterm-256color", "LANG=C.UTF-8"]) + [Semi]
  }

  /** The terminal command as the first shell reads it, and the script as the second one does. */
  lemma TerminalCommandMeans(container: string, user: string, graphics: seq<string>, audio: seq<string>, argv: seq<string>)
    ensures var lexed := Lex(TerminalCommand(container, user, graphics, audio, argv));
      && (argv == [] && audio == [] ==>
            lexed == Some(ExportTokens() + WordTokens(["exec", BINARY, "--name=" + container, "enter", user])))
      && (argv == [] && audio != [] ==>
            var script := AudioScript(user, audio);
            && lexed == Some(ExportTokens() + WordTokens(["exec", BINARY, "--name=" + container, "run", "/bin/sh", "-lc", script]))
            && Lex(script) == Some(WordTokens(["export"] + audio) + [Semi]
                                   + WordTokens(["exec", "/usr/bin/su", "-l", "-w", Commas(AUDIO_NAMES), user])))
      && (argv != [] ==>
            var script := Command(LaunchScriptPieces(graphics + audio, argv));
            && lexed == Some(ExportTokens() + WordTokens(["exec", BINARY, "--name=" + container, "--user=" + user,
                                                          "run", "/bin/sh", "-lc", script]))
            && Lex(script) == Some([Word("exec"), Word("/usr/bin/env")] + WordTokens(graphics + audio) + WordTokens(argv)))
  {
    var ps, script := TerminalPieces(container, user, graphics, audio, argv), Command(LaunchScriptPieces(graphics + audio, argv));
    ExportsOk();
    ExportWords();
    OuterPiecesOk(container, user, AudioScript(user, audio));
    OuterPiecesOk(container, user, script);
    SequenceLexes(Exports(), ps);
    if argv != [] {
      LaunchWords(container, user, script);
      LaunchScriptMeans(graphics + audio, argv);
    } else if audio != [] {
      RunWords(container, AudioScript(user, audio));
      AudioScriptMeans(user, audio);
    } else {
      EnterWords(container, user);
    }
  }

  /* ---------- x11_command ---------- */

  function EnvPieces(user: string, environment: seq<string>): seq<Piece> {
    [Fixed("exec"), Fixed("/usr/bin/env"), Fixed("-u"), Fixed("WAYLAND_DISPLAY"), Fixed("-u"), Fixed("QT_QPA_PLATFORM"),
     Fixed("-u"), Fixed("QT_QUICK_BACKEND"), Fixed("DISPLAY=:0"), Fixed("XDG_SESSION_TYPE=x11"),
     Prefixed("XDG_RUNTIME_DIR=", "/tmp/runtime-" + user), Words(environment)]
  }

  function LoginPieces(user: string, argv: seq<string>): seq<Piece> {
    [Fixed("/usr/bin/su"), Fixed("-l"), Fixed("-w"), Fixed(Preserved()), Q(user)]
    + if argv == [] then [] else [Fixed("-c"), Q(ShellWords(argv))]
  }

  function X11Script(user: string, environment: seq<string>, argv: seq<string>): string {
    Command(EnvPieces(user, environment)) + " " + Command(LoginPieces(user, argv))
  }

  function X11Command(container: string, user: string, environment: seq<string>, argv: seq<string>): string {
    Command(AudioPieces(container, X11Script(user, environment, argv)))
  }

  lemma EnvPiecesOk(user: string, environment: seq<string>)
    ensures AllOk(EnvPieces(user, environment))
  {
    ShortWords();
    OptionWords();
    ProgramWords();
    LongerWords();
    VariableWords();
  }

  lemma LoginPiecesOk(user: string, argv: seq<string>)
    ensures AllOk(LoginPieces(user, argv))
  {
    ShortWords();
    ProgramWords();
    PreservedPlain();
  }

  /** The fixed part of the environment. */
  function EnvStart(user: string): seq<string> {
    ["exec", "/usr/bin/env", "-u", "WAYLAND_DISPLAY", "-u", "QT_QPA_PLATFORM", "-u", "QT_QUICK_BACKEND", "DISPLAY=:0",
     "XDG_SESSION_TYPE=x11", "XDG_RUNTIME_DIR=" + ("/tmp/runtime-" + user)]
  }

  /** The guest script: a clean graphics environment, then the login shell with the preserved variables. */
  function X11Words(user: string, environment: seq<string>, argv: seq<string>): seq<string> {
    EnvStart(user) + environment
    + ["/usr/bin/su", "-l", "-w", Preserved(), user]
    + (if argv == [] then [] else ["-c", ShellWords(argv)])
  }

  /** Three shells deep: container shell, guest script, login shell; the arguments arrive unchanged. */
  lemma X11CommandMeans(container: string, user: string, environment: seq<string>, argv: seq<string>)
    ensures var script := X11Script(user, environment, argv);
      && Lex(X11Command(container, user, environment, argv))
         == Some(WordTokens(["exec", BINARY, "--name=" + container, "run", "/bin/sh", "-lc", script]))
      && Lex(script) == Some(WordTokens(X11Words(user, environment, argv)))
      && Lex(ShellWords(argv)) == Some(WordTokens(argv))
  {
    var script := X11Script(user, environment, argv);
    OuterPiecesOk(container, user, script);
    CommandLexes(AudioPieces(container, script));
    RunWords(container, script);
    X11ScriptLexes(user, environment, argv);
    EnvWords(user, environment);
    LoginWords(user, argv);
    ShellWordsRoundTrip(argv);
    X11WordTokens(user, environment, argv);
  }

  lemma {:induction false} X11WordTokens(user: string, environment: seq<string>, argv: seq<string>)
    ensures var login := ["/usr/bin/su", "-l", "-w", Preserved(), user] + if argv == [] then [] else ["-c", ShellWords(argv)];
      WordTokens(X11Words(user, environment, argv))
      == WordTokens(EnvStart(user)) + WordTokens(environment) + WordTokens(login)
  {
    var login := ["/usr/bin/su", "-l", "-w", Preserved(), user] + if argv == [] then [] else ["-c", ShellWords(argv)];
    assert X11Words(user, environment, argv) == EnvStart(user) + environment + login;
    WordTokensConcat(EnvStart(user) + environment, login);
    WordTokensConcat(EnvStart(user), environment);
  }

  lemma {:induction false} EnvWords(user: string, environment: seq<string>)
    ensures Meanings(EnvPieces(user, environment)) == WordTokens(EnvStart(user)) + WordTokens(environment)
  {
    var all := EnvPieces(user, environment);
    var ps := all[..|all| - 1];
    SingleWords(ps);
    assert WordsOf(ps) == EnvStart(user);
  }

  lemma {:induction false} LoginWords(user: string, argv: seq<string>)
    ensures Meanings(LoginPieces(user, argv))
         == WordTokens(["/usr/bin/su", "-l", "-w", Preserved(), user] + if argv == [] then [] else ["-c", ShellWords(argv)])
  {
    var ps, su := LoginPieces(user, argv), ["/usr/bin/su", "-l", "-w", Preserved(), user];
    SingleWords(ps);
    assert "" + user == user && "" + ShellWords(argv) == ShellWords(argv);
    if argv == [] {
      assert WordsOf(ps) == su && su + [] == su;
    } else {
      assert WordsOf(ps) == su + ["-c", ShellWords(argv)];
    }
  }

  lemma X11ScriptLexes(user: string, environment: seq<string>, argv: seq<string>)
    ensures Lex(X11Script(user, environment, argv))
            == Some(Meanings(EnvPieces(user, environment)) + Meanings(LoginPieces(user, argv)))
  {
    EnvPiecesOk(user, environment);
    LoginPiecesOk(user, argv);
    CommandLexes(EnvPieces(user, environment));
    CommandLexes(LoginPieces(user, argv));
    BlankSeparates();
    LexAround(Command(EnvPieces(user, environment)), " ", Command(LoginPieces(user, argv)), []);
    assert Meanings(EnvPieces(user, environment)) + [] == Meanings(EnvPieces(user, environment));
  }
}
