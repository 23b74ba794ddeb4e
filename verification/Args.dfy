/** `parse_args` of `agent/src/main.rs`. */
module Args {
  import opened Wrappers

  datatype Invocation = Serve | Version | Help | Update | Rollback | TlsFingerprint | Unknown(arg: string)

  function Flag(arg: string): Option<Invocation> {
    if arg == "--version" || arg == "-V" then Some(Version)
    else if arg == "--help" || arg == "-h" then Some(Help)
    else None
  }

  function Command(arg: string): Option<Invocation> {
    if arg == "update" then Some(Update)
    else if arg == "rollback" then Some(Rollback)
    else if arg == "tls-fingerprint" then Some(TlsFingerprint)
    else None
  }

  function FirstFlag(args: seq<string>): Option<Invocation> {
    if args == [] then None
    else if Flag(args[0]).Some? then Flag(args[0]) else FirstFlag(args[1..])
  }

  /** What an argument list means: the first flag wins wherever it stands; otherwise a command
      stands alone, and the first argument that is not one, or not alone, is named. */
  function Meaning(args: seq<string>): Invocation {
    if FirstFlag(args).Some? then FirstFlag(args).value
    else if args == [] then Serve
    else if Command(args[0]).None? then Unknown(args[0])
    else if |args| == 1 then Command(args[0]).value
    else Unknown(args[1])
  }

  lemma {:induction false} FlagAt(args: seq<string>, k: nat)
    requires k < |args| && Flag(args[k]).Some? && forall j :: 0 <= j < k ==> Flag(args[j]).None?
    ensures FirstFlag(args) == Flag(args[k])
  {
    if k > 0 {
      FlagAt(args[1..], k - 1);
    }
  }

  lemma {:induction false} NoFlag(args: seq<string>)
    requires forall j :: 0 <= j < |args| ==> Flag(args[j]).None?
    ensures FirstFlag(args) == None
  {
    if args != [] {
      NoFlag(args[1..]);
    }
  }

  predicate IsVersionFlag(arg: string) { arg == "--version" || arg == "-V" }

  predicate IsHelpFlag(arg: string) { arg == "--help" || arg == "-h" }

  predicate IsCommand(arg: string) { arg == "update" || arg == "rollback" || arg == "tls-fingerprint" }

  /** The k-th argument is the first flag. */
  predicate IsFirstFlag(args: seq<string>, k: nat)
    requires k < |args|
  {
    && (IsVersionFlag(args[k]) || IsHelpFlag(args[k]))
    && forall j :: 0 <= j < k ==> !IsVersionFlag(args[j]) && !IsHelpFlag(args[j])
  }

  predicate HasFlag(args: seq<string>) {
    exists k :: 0 <= k < |args| && IsFirstFlag(args, k)
  }

  lemma {:induction false} HasFlagIsExact(args: seq<string>)
    ensures HasFlag(args) <==> exists k :: 0 <= k < |args| && (IsVersionFlag(args[k]) || IsHelpFlag(args[k]))
  {
    if args != [] && !IsVersionFlag(args[0]) && !IsHelpFlag(args[0]) {
      HasFlagIsExact(args[1..]);
      if k :| 0 <= k < |args[1..]| && IsFirstFlag(args[1..], k) {
        assert IsFirstFlag(args, k + 1) by {
          forall j | 0 < j < k + 1 ensures !IsVersionFlag(args[j]) && !IsHelpFlag(args[j]) {
            assert args[j] == args[1..][j - 1];
          }
        }
      }
      if k :| 0 <= k < |args| && (IsVersionFlag(args[k]) || IsHelpFlag(args[k])) {
        assert args[k] == args[1..][k - 1];
      }
    } else if args != [] {
      assert IsFirstFlag(args, 0);
    }
  }

  /** The meaning, word by word. */
  lemma MeaningInWords(args: seq<string>)
    ensures Meaning(args) == Version <==> exists k :: 0 <= k < |args| && IsFirstFlag(args, k) && IsVersionFlag(args[k])
    ensures Meaning(args) == Help <==> exists k :: 0 <= k < |args| && IsFirstFlag(args, k) && IsHelpFlag(args[k])
    ensures Meaning(args) == Serve <==> args == []
    ensures Meaning(args) == Update <==> args == ["update"]
    ensures Meaning(args) == Rollback <==> args == ["rollback"]
    ensures Meaning(args) == TlsFingerprint <==> args == ["tls-fingerprint"]
    ensures !HasFlag(args) && args != [] && !IsCommand(args[0]) ==> Meaning(args) == Unknown(args[0])
    ensures !HasFlag(args) && |args| > 1 && IsCommand(args[0]) ==> Meaning(args) == Unknown(args[1])
  {
    NothingIsIgnored(args);
    if HasFlag(args) {
      var k :| 0 <= k < |args| && IsFirstFlag(args, k);
      assert forall j :: 0 <= j < k ==> Flag(args[j]).None?;
      FlagAt(args, k);
      forall j | 0 <= j < |args| && IsFirstFlag(args, j) ensures j == k {}
      FlagIsNoCommand(args[0]);
    } else {
      HasFlagIsExact(args);
      NoFlag(args);
    }
  }

  lemma FlagIsNoCommand(arg: string)
    ensures IsVersionFlag(arg) || IsHelpFlag(arg) ==> !IsCommand(arg)
  {
    if IsVersionFlag(arg) || IsHelpFlag(arg) {
      assert arg[0] == '-';
    }
  }

  /** The first flag wins wherever it stands; the server starts on no arguments, a command runs on its one
      word, and anything else is named as unknown. */
  method ParseArgs(args: seq<string>) returns (r: Invocation)
    ensures r == Meaning(args)
    ensures r == Version <==> exists k :: 0 <= k < |args| && IsFirstFlag(args, k) && IsVersionFlag(args[k])
    ensures r == Help <==> exists k :: 0 <= k < |args| && IsFirstFlag(args, k) && IsHelpFlag(args[k])
    ensures r == Serve <==> args == []
    ensures r == Update <==> args == ["update"]
    ensures r == Rollback <==> args == ["rollback"]
    ensures r == TlsFingerprint <==> args == ["tls-fingerprint"]
    ensures !HasFlag(args) && args != [] && !IsCommand(args[0]) ==> r == Unknown(args[0])
    ensures !HasFlag(args) && |args| > 1 && IsCommand(args[0]) ==> r == Unknown(args[1])
  {
    MeaningInWords(args);
    var command: Option<string> := None;
    var unknown: Option<string> := None;
    for k := 0 to |args|
      invariant forall j :: 0 <= j < k ==> Flag(args[j]).None?
      invariant command == if k > 0 && Command(args[0]).Some? then Some(args[0]) else None
      invariant unknown ==
                if k == 0 then None
                else if Command(args[0]).None? then Some(args[0])
                else if k > 1 then Some(args[1]) else None
    {
      var arg := args[k];
      if Flag(arg).Some? {
        FlagAt(args, k);
        return Flag(arg).value;
      }
      if Command(arg).Some? && command.None? && unknown.None? {
        command := Some(arg);
      } else if unknown.None? {
        unknown := Some(arg);
      }
    }
    NoFlag(args);
    if unknown.Some? {
      r := Unknown(unknown.value);
    } else if command.Some? {
      r := Command(command.value).value;
    } else {
      r := Serve;
    }
  }

  /** The server starts on no arguments only, and a command runs only when it is the one argument:
      nothing is ever ignored on the way. */
  lemma NothingIsIgnored(args: seq<string>)
    ensures Meaning(args) == Serve <==> args == []
    ensures Meaning(args) in {Update, Rollback, TlsFingerprint} <==> |args| == 1 && Command(args[0]).Some?
  {
    if args != [] {
      FlagsAreNotCommands(args[0]);
    }
    FirstFlagIsAFlag(args);
  }

  lemma FlagsAreNotCommands(arg: string)
    ensures Flag(arg).None? || Command(arg).None?
  {
    if Flag(arg).Some? {
      assert arg[0] == '-';
    }
  }

  lemma {:induction false} FirstFlagIsAFlag(args: seq<string>)
    ensures FirstFlag(args) in {None, Some(Version), Some(Help)}
    ensures |args| == 1 ==> FirstFlag(args) == Flag(args[0])
  {
    if args != [] {
      FirstFlagIsAFlag(args[1..]);
    }
  }
}
