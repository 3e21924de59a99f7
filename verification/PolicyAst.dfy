/** The parsed policy tree: only the parts that scheduling and composition read. */
module PolicyAst {
  import opened Common

  datatype Span = Span(start: nat, end: nat, line: nat, col: nat)

  datatype ErrorStrategy = Continue | Skip | Abort | Quarantine

  datatype RunIfTrigger = Modified | Completed

  datatype RunIf = RunIf(phase: string, trigger: RunIfTrigger)

  // Conditions and operations are carried through unread; their source text stands for them.
  datatype Condition = Condition(text: string)
  datatype Operation = Operation(text: string)

  datatype PhaseNode = PhaseNode(
    name: string,
    extend: bool,
    skipWhen: Option<Condition>,
    dependsOn: Option<seq<string>>,
    runIf: Option<RunIf>,
    onError: Option<ErrorStrategy>,
    operations: seq<Operation>,
    span: Span)
  {
    /** `depends_on` with an absent clause read as no dependencies. */
    function Deps(): seq<string> {
      if dependsOn.Some? then dependsOn.value else []
    }
  }

  datatype ExtendsSource = BundledRef(name: string) | FileRef(uri: string)

  datatype Metadata = Metadata(
    version: Option<string>,
    author: Option<string>,
    description: Option<string>,
    requiresVoom: Option<string>,
    requiresTools: Option<seq<string>>,
    testFixtures: Option<seq<string>>,
    span: Span)

  datatype Config = Config(
    audioLanguages: seq<string>,
    subtitleLanguages: seq<string>,
    onError: Option<ErrorStrategy>,
    commentaryPatterns: seq<string>,
    keepBackups: Option<bool>,
    span: Span)

  datatype Policy = Policy(
    name: string,
    base: Option<ExtendsSource>,
    metadata: Option<Metadata>,
    config: Option<Config>,
    phases: seq<PhaseNode>,
    span: Span)

  function Names(phases: seq<PhaseNode>): set<string> {
    set i | 0 <= i < |phases| :: phases[i].name
  }

  function NameList(phases: seq<PhaseNode>): seq<string> {
    seq(|phases|, i requires 0 <= i < |phases| => phases[i].name)
  }

  /** What the validator demands of a policy: no phase name twice. */
  ghost predicate DistinctNames(phases: seq<PhaseNode>) {
    forall i, j :: 0 <= i < j < |phases| ==> phases[i].name != phases[j].name
  }
}
