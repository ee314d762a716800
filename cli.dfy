/**
 The decisions `main()` makes: which headline limit to use and where the
 finished report goes. Output is described as a list of effects (a file write,
 printed lines) rather than performed.
 */
module Cli {
  import opened Wrappers
  import opened Config
  import opened NewsAgent

  /** The parsed command line: `source_url [-n LIMIT] [-o OUTPUT]`. */
  datatype Arguments = Arguments(sourceUrl: string, limit: Option<int>, output: Option<string>)

  /** One observable effect of the program. */
  datatype Effect = WriteText(path: string, text: string) | PrintLine(text: string)

  /**
   `args.limit or cfg.default_limit`: Python's `or` keeps its left operand only
   when it is truthy, so both a missing `--limit` and `--limit 0` fall back to
   the configured default.
   */
  function EffectiveLimit(requested: Option<int>, defaultLimit: int): (limit: int)
    ensures requested.None? ==> limit == defaultLimit
    ensures requested == Some(0) ==> limit == defaultLimit
    ensures requested.Some? && requested.value != 0 ==> limit == requested.value
    ensures limit == 0 ==> defaultLimit == 0
  {
    match requested
    case Some(n) => if n != 0 then n else defaultLimit
    case None => defaultLimit
  }

  /** `if args.output:` is false for an absent option and for an empty path alike. */
  predicate WritesToFile(output: Option<string>)
    ensures output.None? ==> !WritesToFile(output)
    ensures output == Some("") ==> !WritesToFile(output)
    ensures output.Some? && |output.value| > 0 ==> WritesToFile(output)
  {
    output.Some? && output.value != ""
  }

  /** The line printed after the file is written, ending in the path. */
  function Confirmation(path: string): (line: string)
    ensures "Written digest to " <= line
    ensures line[|"Written digest to "|..] == path
  {
    "Written digest to " + path
  }

  /** The files written by a list of effects, in order, as (path, text) pairs. */
  function Writes(effects: seq<Effect>): (w: seq<(string, string)>)
    ensures |w| <= |effects|
    ensures w == [] <==> forall i :: 0 <= i < |effects| ==> effects[i].PrintLine?
  {
    if effects == [] then []
    else
      (match effects[0]
       case WriteText(p, t) => [(p, t)]
       case PrintLine(_) => [])
      + Writes(effects[1..])
  }

  /** The lines printed by a list of effects, in order. */
  function Prints(effects: seq<Effect>): (p: seq<string>)
    ensures |p| <= |effects|
    ensures p == [] <==> forall i :: 0 <= i < |effects| ==> effects[i].WriteText?
  {
    if effects == [] then []
    else
      (match effects[0]
       case WriteText(_, _) => []
       case PrintLine(line) => [line])
      + Prints(effects[1..])
  }

  /** Lines 34-38 of `main()`: write the report and confirm, or print it. */
  function DeliverReport(output: Option<string>, report: string): (effects: seq<Effect>)
    ensures WritesToFile(output) ==> Writes(effects) == [(output.value, report)]
    ensures WritesToFile(output) ==> Prints(effects) == [Confirmation(output.value)]
    ensures WritesToFile(output) ==> effects[0].WriteText?
    ensures !WritesToFile(output) ==> Writes(effects) == [] && Prints(effects) == [report]
  {
    if WritesToFile(output) then
      var effects := [WriteText(output.value, report), PrintLine(Confirmation(output.value))];
      assert effects[1..][1..] == [];
      effects
    else
      var effects := [PrintLine(report)];
      assert effects[1..] == [];
      effects
  }

  /** How one run of the program ends. */
  datatype Outcome =
    | Finished(effects: seq<Effect>)
    | ConfigFailed(error: ConfigError)
    | ReportFailed(failure: Failure)

  /**
   `main()` after argument parsing. The crew run is an oracle `kickoff` from the
   settings the clients are built with and the task description to how the run
   ended; everything the program itself decides is spelled out.
   */
  function Run(args: Arguments, env: Environment, kickoff: (Settings, string) -> Kickoff): (r: Outcome)
    ensures LoadSettings(env).Err? ==> r == ConfigFailed(LoadSettings(env).error)
    ensures r.Finished? ==>
      var cfg := LoadSettings(env).value;
      var task := TaskDescription(args.sourceUrl, EffectiveLimit(args.limit, cfg.defaultLimit));
      LoadSettings(env).Ok? && kickoff(cfg, task).Returned? &&
      r.effects == DeliverReport(args.output, kickoff(cfg, task).output)
  {
    match LoadSettings(env)
    case Err(e) => ConfigFailed(e)
    case Ok(cfg) =>
      var limit := EffectiveLimit(args.limit, cfg.defaultLimit);
      match RunNewsReport(kickoff(cfg, TaskDescription(args.sourceUrl, limit)))
      case Completed(report) => Finished(DeliverReport(args.output, report))
      case Failed(f) => ReportFailed(f)
  }

  /**
   A configuration error ends the run before the crew is started: the outcome
   is the same whatever the crew would have done, and nothing is written or
   printed.
   */
  lemma ConfigurationCheckedFirst(args: Arguments, env: Environment,
                                  k1: (Settings, string) -> Kickoff, k2: (Settings, string) -> Kickoff)
    requires LoadSettings(env).Err?
    ensures Run(args, env, k1) == Run(args, env, k2)
    ensures !Run(args, env, k1).Finished?
  {
  }

  /**
   The `--limit` the user gives reaches the agent's task text unless it is zero;
   otherwise the configured default does.
   */
  lemma TaskCarriesLimit(args: Arguments, env: Environment, kickoff: (Settings, string) -> Kickoff)
    requires LoadSettings(env).Ok?
    ensures var cfg := LoadSettings(env).value;
      var chosen := if args.limit.Some? && args.limit.value != 0 then args.limit.value else cfg.defaultLimit;
      var k := kickoff(cfg, TaskDescription(args.sourceUrl, chosen));
      Run(args, env, kickoff) ==
        if k.Returned? then Finished(DeliverReport(args.output, k.output))
        else ReportFailed(Classify(k.error))
  {
  }
}
