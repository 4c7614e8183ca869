/** The command-line tool: list the services as JSON, or exit with a status chosen by the
    error that stopped it. */
module Cli {
  import opened Basics
  import opened Models
  import opened CoreManager

  /** `exitCode(for:)`: one distinct status per `BrewError` case, none of them 0 (success) or 1
      (the status of any other error), all within `Int32`. */
  function ExitCode(e: BrewError): (code: int)
    ensures code != 0 && code != 1
    ensures -0x8000_0000 <= code < 0x8000_0000
    ensures code == 2 <==> e.BrewNotFound?
    ensures code == 3 <==> e.ExecutionFailed?
    ensures code == 4 <==> e.InvalidOutput?
    ensures code == 130 <==> e.OperationCancelled?
    ensures code == 77 <==> e.RequiresAuthentication?
  {
    match e
    case BrewNotFound => 2
    case ExecutionFailed(_) => 3
    case InvalidOutput(_) => 4
    case OperationCancelled => 130
    case RequiresAuthentication(_) => 77
  }

  /** Two errors share an exit status exactly when they are the same case; the payload never
      matters. */
  lemma ExitCodesDistinct(a: BrewError, b: BrewError)
    ensures ExitCode(a) == ExitCode(b) <==>
      (a.BrewNotFound? && b.BrewNotFound?)
      || (a.ExecutionFailed? && b.ExecutionFailed?)
      || (a.InvalidOutput? && b.InvalidOutput?)
      || (a.OperationCancelled? && b.OperationCancelled?)
      || (a.RequiresAuthentication? && b.RequiresAuthentication?)
  {
  }

  /** What `JSONEncoder.encode` and the UTF-8 decoding of its bytes did: the text, bytes that
      are not UTF-8, or an encoding error thrown. */
  datatype Encoding = Encoded(json: string) | Undecodable | EncoderThrew(description: string)

  /** How a run of the tool ends: the JSON printed and a normal exit, or an exit status. */
  datatype Ending = Printed(json: string) | Exit(status: int)

  /** `main()`: a listing that fails ends with its error's exit status (1 for an error that is
      not a `BrewError`); a listing that succeeds is printed, unless its JSON cannot be decoded
      as UTF-8 (an `invalidOutput`, status 4) or the encoder throws (status 1). */
  function RunTool(listing: Result<seq<BrewService>, Failure>, encoding: Encoding): (r: Ending)
    ensures r.Printed? <==> listing.Ok? && encoding.Encoded?
    ensures r.Printed? ==> r.json == encoding.json
    ensures r.Exit? ==> r.status != 0
    ensures r == Exit(1) <==>
      (listing.Err? && listing.error.Other?) || (listing.Ok? && encoding.EncoderThrew?)
    ensures listing.Err? && listing.error.Brew? ==> r == Exit(ExitCode(listing.error.error))
    ensures listing.Ok? && encoding.Undecodable? ==> r == Exit(4)
  {
    match listing
    case Err(Brew(e)) => Exit(ExitCode(e))
    case Err(Other(_)) => Exit(1)
    case Ok(_) =>
      match encoding
      case Encoded(json) => Printed(json)
      case Undecodable => Exit(ExitCode(InvalidOutput("Cannot encode JSON output")))
      case EncoderThrew(_) => Exit(1)
  }

  /** The tool's exit status names the case of the failure it met: 3 exactly when
      `brew services list` exited non-zero without asking for authentication, 77 exactly when
      it asked for authentication, and never 2 or 130, which `servicesList()` cannot throw. */
  lemma RunToolOnServicesList(outcome: ProcessOutcome, encoding: Encoding)
    ensures var r := RunTool(ServicesList(outcome), encoding);
      && (r == Exit(3) <==>
            (outcome.Exited? && outcome.status != 0
             && !Text.Contains(ErrorText(outcome.stderr), "requires authentication")))
      && (r == Exit(77) <==>
            (outcome.Exited? && outcome.status != 0
             && Text.Contains(ErrorText(outcome.stderr), "requires authentication")))
      && r != Exit(2) && r != Exit(130)
  {
  }
}
