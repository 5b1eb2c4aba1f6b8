/** The command-line decisions of main.c: which file names are accepted and
    which exit status each outcome produces. Reading the file and running
    the interactive loop are input/output and are not modelled. */
module Cli {

  datatype InterpretResult = InterpretOk | InterpretCompileError | InterpretRuntimeError

  const ExitUsage := 64
  const ExitCompileError := 65
  const ExitRuntimeError := 70

  /** hasKavExtension: the path is at least four characters long and its
      last four characters are exactly ".kav". */
  function HasKavExtension(path: string): (r: bool)
    ensures |path| < 4 ==> !r
  {
    if |path| < 4 then false else path[|path| - 4..] == ".kav"
  }

  /** Every file name ending in ".kav" is accepted, and nothing else is. */
  lemma {:induction false} KavSuffixAccepted(path: string)
    ensures HasKavExtension(path) <==> exists stem :: path == stem + ".kav"
  {
    if HasKavExtension(path) {
      var stem := path[..|path| - 4];
      assert path == stem + ".kav";
    }
    if exists stem :: path == stem + ".kav" {
      var stem :| path == stem + ".kav";
      assert path[|path| - 4..] == ".kav";
    }
  }

  /** The comparison is case-sensitive: ".KAV" is refused. */
  lemma UpperCaseSuffixRefused(stem: string)
    ensures !HasKavExtension(stem + ".KAV")
  {
    var p := stem + ".KAV";
    assert p[|p| - 4..][1] == 'K';
  }

  /** runFile: the exit status it forces, if it does not return normally. */
  function RunFileExit(result: InterpretResult): (code: ForcedExit)
    ensures code.ReturnsNormally? <==> result == InterpretOk
    ensures result == InterpretCompileError ==> code == Exits(ExitCompileError)
    ensures result == InterpretRuntimeError ==> code == Exits(ExitRuntimeError)
  {
    match result
    case InterpretOk => ReturnsNormally
    case InterpretCompileError => Exits(ExitCompileError)
    case InterpretRuntimeError => Exits(ExitRuntimeError)
  }

  /** How runFile ends: it returns, or it exits the process with a status. */
  datatype ForcedExit = ReturnsNormally | Exits(status: int)

  /** The exit status of `main` given its arguments after the program name.
      `run` is what interpreting the named file yields; it is consulted only
      when exactly one argument names a ".kav" file. No argument runs the
      interactive loop, which ends with status 0. */
  function ExitStatus(args: seq<string>, run: InterpretResult): (status: int)
    ensures |args| > 1 ==> status == ExitUsage
    ensures |args| == 1 && !HasKavExtension(args[0]) ==> status == ExitUsage
    ensures |args| == 1 && HasKavExtension(args[0]) ==>
              status == (match run
                         case InterpretOk => 0
                         case InterpretCompileError => ExitCompileError
                         case InterpretRuntimeError => ExitRuntimeError)
    ensures |args| == 0 ==> status == 0
  {
    if |args| == 0 then 0
    else if |args| == 1 then
      if HasKavExtension(args[0]) then
        match RunFileExit(run)
        case Exits(code) => code
        case ReturnsNormally => 0
      else ExitUsage
    else ExitUsage
  }

  /** Status 0 means the run succeeded or there was nothing to run, and
      each failure has its own status. */
  lemma {:induction false} ExitStatusClassifies(args: seq<string>, run: InterpretResult)
    ensures ExitStatus(args, run) in {0, ExitUsage, ExitCompileError, ExitRuntimeError}
    ensures ExitStatus(args, run) == 0 <==>
              |args| == 0 || (|args| == 1 && HasKavExtension(args[0]) && run == InterpretOk)
  {
  }
}
