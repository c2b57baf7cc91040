/** The framework upgrade as a multi-step proposal: scripts are authored last to first, each
    carrying the hash of the one to run after it, and the chain accepts only the approved hash. */
module UpgradeProposal {
  import opened Common
  import opened Hex
  import opened MoveText
  import opened MoveScript
  import opened ReleaseBundle
  import opened ScriptAuthor

  const HASH_LENGTH: nat := 32

  type HashBytes = h: seq<byte> | |h| == HASH_LENGTH witness seq(HASH_LENGTH, _ => 0)

  /** The hash of a compiled script. */
  type Hasher = Script -> HashBytes

  // ----- The on-chain rule -----

  datatype Proposal = Awaiting(approved: seq<byte>) | Ended

  /** Executes a script against a proposal: its hash must be the approved one; it names the hash
      approved next, and an empty one ends the proposal. */
  function Execute(hash: Hasher, p: Proposal, s: Script): Option<Proposal> {
    if p.Ended? || hash(s) != p.approved then None
    else
      var m :- Run(s, FRESH);
      var next :- m.resolved;
      Some(if next == [] then Ended else Awaiting(next))
  }

  /** A whole run: every script in turn must be executable. */
  function Play(hash: Hasher, p: Proposal, run: seq<Script>): Option<Proposal>
    decreases |run|
  {
    if run == [] then Some(p)
    else
      var p' :- Execute(hash, p, run[0]);
      Play(hash, p', run[1..])
  }

  // ----- The intended chain -----

  function StepScript(package: ReleasePackage, account: nat, next: seq<byte>, commit: seq<byte>): Script {
    Body(package, account, next) + [SetGit(commit)]
  }

  /** The hash a script must carry so that `later` runs after it. */
  function Link(hash: Hasher, later: seq<Script>): seq<byte> {
    if later == [] then [] else hash(later[0])
  }

  /** The scripts in deploy order. */
  function ScriptChain(hash: Hasher, packages: seq<ReleasePackage>, account: nat, commit: seq<byte>): (ss: seq<Script>)
    ensures |ss| == |packages|
  {
    if packages == [] then []
    else
      var later := ScriptChain(hash, packages[1..], account, commit);
      [StepScript(packages[0], account, Link(hash, later), commit)] + later
  }

  function StateFor(hash: Hasher, later: seq<Script>): Proposal {
    if later == [] then Ended else Awaiting(hash(later[0]))
  }

  /** No script of the run shares its hash with a different script of the chain. */
  predicate NoCollision(hash: Hasher, run: seq<Script>, chain: seq<Script>) {
    forall i, j :: 0 <= i < |run| && 0 <= j < |chain| && hash(run[i]) == hash(chain[j]) ==> run[i] == chain[j]
  }

  lemma StepExecutes(hash: Hasher, package: ReleasePackage, account: nat, later: seq<Script>, commit: seq<byte>)
    ensures var s := StepScript(package, account, Link(hash, later), commit);
            Execute(hash, Awaiting(hash(s)), s) == Some(StateFor(hash, later))
  {
    BodyRuns(package, account, Link(hash, later), commit);
  }

  /** Once the first script is approved, the runs the chain allows are exactly the prefixes of the
      generated scripts in deploy order, and the proposal ends with the last of them. */
  lemma {:induction false} OnlyRun(hash: Hasher, packages: seq<ReleasePackage>, account: nat, commit: seq<byte>,
                                   run: seq<Script>)
    requires NoCollision(hash, run, ScriptChain(hash, packages, account, commit))
    ensures var chain := ScriptChain(hash, packages, account, commit);
            var end := Play(hash, StateFor(hash, chain), run);
            && (end.Some? <==> run <= chain)
            && (end.Some? ==> end.value == StateFor(hash, chain[|run|..]))
            && (end == Some(Ended) <==> run == chain)
    decreases |packages|
  {
    var chain := ScriptChain(hash, packages, account, commit);
    if run == [] {
      assert chain[0..] == chain;
    } else if packages == [] {
    } else {
      var later := ScriptChain(hash, packages[1..], account, commit);
      assert chain[0] == StepScript(packages[0], account, Link(hash, later), commit) && chain[1..] == later;
      StepExecutes(hash, packages[0], account, later, commit);
      if run[0] == chain[0] {
        assert NoCollision(hash, run[1..], later) by {
          forall i, j | 0 <= i < |run| - 1 && 0 <= j < |later| && hash(run[1..][i]) == hash(later[j])
            ensures run[1..][i] == later[j]
          {
            assert run[1..][i] == run[i + 1] && later[j] == chain[j + 1];
          }
        }
        OnlyRun(hash, packages[1..], account, commit, run[1..]);
        assert run == [run[0]] + run[1..] && chain == [chain[0]] + later;
        assert run[1..] <= later ==> run <= chain && chain[|run|..] == later[|run| - 1..];
        assert run <= chain ==> run[1..] <= later;
      } else {
        assert hash(run[0]) != hash(chain[0]);
      }
    }
  }

  // ----- What gets published -----

  function PublishedBy(s: Script): Option<(seq<byte>, seq<seq<byte>>)> {
    var m :- Run(s, FRESH);
    m.published
  }

  /** The packages a run publishes, in order. */
  function PublishedAll(run: seq<Script>): seq<Option<(seq<byte>, seq<seq<byte>>)>> {
    seq(|run|, i requires 0 <= i < |run| => PublishedBy(run[i]))
  }

  lemma {:induction false} ChainPublishes(hash: Hasher, packages: seq<ReleasePackage>, account: nat,
                                          commit: seq<byte>, k: nat)
    requires k < |packages|
    ensures PublishedBy(ScriptChain(hash, packages, account, commit)[k]) ==
            Some((packages[k].metadata, packages[k].code))
    decreases |packages|
  {
    var later := ScriptChain(hash, packages[1..], account, commit);
    if k == 0 {
      BodyRuns(packages[0], account, Link(hash, later), commit);
    } else {
      ChainPublishes(hash, packages[1..], account, commit, k - 1);
    }
  }

  /** A proposal that reaches its end has published every package, once each and in order. */
  lemma EndedPublishesAll(hash: Hasher, packages: seq<ReleasePackage>, account: nat, commit: seq<byte>,
                          run: seq<Script>)
    requires NoCollision(hash, run, ScriptChain(hash, packages, account, commit))
    requires Play(hash, StateFor(hash, ScriptChain(hash, packages, account, commit)), run) == Some(Ended)
    ensures |PublishedAll(run)| == |packages|
    ensures forall k :: 0 <= k < |packages| ==> PublishedAll(run)[k] == Some((packages[k].metadata, packages[k].code))
  {
    OnlyRun(hash, packages, account, commit, run);
    forall k | 0 <= k < |packages|
      ensures PublishedAll(run)[k] == Some((packages[k].metadata, packages[k].code))
    {
      ChainPublishes(hash, packages, account, commit, k);
    }
  }

  // ----- The builder -----

  const DEFAULT_CORE_MODULES: seq<string> := ["move-stdlib", "vendor-stdlib", "libra-framework"]

  /** What one step leaves behind: the script text, its compiled code and the code's hash. */
  datatype Artifact = Artifact(name: string, text: string, code: Script, hash: HashBytes)

  type Builder = string -> Option<ReleasePackage>

  predicate AllBuild(build: Builder, modules: seq<string>) {
    forall i :: 0 <= i < |modules| ==> build(modules[i]).Some?
  }

  function Packages(build: Builder, modules: seq<string>): (ps: seq<ReleasePackage>)
    requires AllBuild(build, modules)
    ensures |ps| == |modules|
  {
    seq(|modules|, i requires 0 <= i < |modules| => build(modules[i]).value)
  }

  predicate BuiltFrom(build: Builder, modules: seq<string>, packages: seq<ReleasePackage>) {
    |packages| == |modules| && forall k :: 0 <= k < |modules| ==> build(modules[k]) == Some(packages[k])
  }

  lemma BuiltGrows(build: Builder, modules: seq<string>, i: nat, packages: seq<ReleasePackage>)
    requires i < |modules| && build(modules[i]).Some? && BuiltFrom(build, modules[i + 1..], packages)
    ensures BuiltFrom(build, modules[i..], [build(modules[i]).value] + packages)
  {
    assert modules[i..] == [modules[i]] + modules[i + 1..];
  }

  lemma BuiltAll(build: Builder, modules: seq<string>, packages: seq<ReleasePackage>)
    requires BuiltFrom(build, modules, packages)
    ensures AllBuild(build, modules) && packages == Packages(build, modules)
  {
  }

  /** The artifacts, in generation order, are those of the chain in reverse. */
  predicate Generated(hash: Hasher, modules: seq<string>, chain: seq<Script>, artifacts: seq<Artifact>) {
    && |artifacts| == |chain| == |modules|
    && forall k :: 0 <= k < |modules| ==>
         var a := artifacts[|modules| - 1 - k];
         a.name == modules[k] && a.code == chain[k] && a.hash == hash(chain[k])
  }

  predicate Compiles(a: Artifact) {
    ReadScript(a.text) == Some(a.code)
  }

  predicate AllCompile(artifacts: seq<Artifact>) {
    forall i :: 0 <= i < |artifacts| ==> Compiles(artifacts[i])
  }

  /** The account the printed address stands for in a script. */
  function AccountOf(address: Account): nat {
    if AllDigits(Printed(address)) then NatOf(Printed(address)) else 0
  }

  /** The commit as the script records it. */
  function CommitOf(git: string): seq<byte> {
    if IsHexLiteral(git) then HexBytes(git) else []
  }

  /** One turn of the loop: build, author, compile, hash. */
  method MakeStep(name: string, build: Builder, address: Account, next: seq<byte>, git: string, hash: Hasher)
    returns (r: Option<Artifact>)
    requires next == [] || |next| == 32
    ensures r.Some? <==> build(name).Some? && Compilable(address, git)
    ensures r.Some? ==>
              && Compiles(r.value)
              && r.value.name == name
              && r.value.code == StepScript(build(name).value, AccountOf(address), next, CommitOf(git))
              && r.value.hash == hash(r.value.code)
  {
    var package := build(name);
    if package.None? { return None; }
    var text := AuthorScript(package.value, address, next, git);
    var compiled := ReadScript(text);
    if compiled.None? { return None; }
    r := Some(Artifact(name, text, compiled.value, hash(compiled.value)));
  }

  /** What the loop has established for the modules handled so far, which are the last ones. */
  predicate MadeSoFar(hash: Hasher, build: Builder, modules: seq<string>, packages: seq<ReleasePackage>,
                      account: nat, commit: seq<byte>, next: seq<byte>, made: seq<Artifact>) {
    && BuiltFrom(build, modules, packages)
    && next == Link(hash, ScriptChain(hash, packages, account, commit))
    && Generated(hash, modules, ScriptChain(hash, packages, account, commit), made)
    && AllCompile(made)
  }

  lemma CompileOneMore(made: seq<Artifact>, a: Artifact)
    requires AllCompile(made) && Compiles(a)
    ensures AllCompile(made + [a])
  {
  }

  lemma MadeOneMore(hash: Hasher, build: Builder, modules: seq<string>, i: nat, packages: seq<ReleasePackage>,
                    account: nat, commit: seq<byte>, next: seq<byte>, made: seq<Artifact>, a: Artifact)
    requires i < |modules| && build(modules[i]).Some?
    requires MadeSoFar(hash, build, modules[i + 1..], packages, account, commit, next, made)
    requires a.name == modules[i] && a.hash == hash(a.code) && Compiles(a)
    requires a.code == StepScript(build(modules[i]).value, account, next, commit)
    ensures MadeSoFar(hash, build, modules[i..], [build(modules[i]).value] + packages, account, commit,
                      a.hash, made + [a])
  {
    CompileOneMore(made, a);
    BuiltGrows(build, modules, i, packages);
    ChainGrows(hash, modules, i, packages, build(modules[i]).value, account, commit, made, a);
  }

  method MakeNext(name: string, ghost modules: seq<string>, ghost i: nat, build: Builder, address: Account,
                  git: string, hash: Hasher, next: seq<byte>, ghost made: seq<Artifact>,
                  ghost packages: seq<ReleasePackage>)
    returns (r: Option<Artifact>)
    requires i < |modules| && name == modules[i]
    requires MadeSoFar(hash, build, modules[i + 1..], packages, AccountOf(address), CommitOf(git), next, made)
    ensures r.Some? <==> build(name).Some? && Compilable(address, git)
    ensures r.Some? ==>
              && r.value.name == name
              && MadeSoFar(hash, build, modules[i..], [build(name).value] + packages, AccountOf(address),
                           CommitOf(git), r.value.hash, made + [r.value])
  {
    r := MakeStep(name, build, address, next, git, hash);
    if r.Some? {
      MadeOneMore(hash, build, modules, i, packages, AccountOf(address), CommitOf(git), next, made, r.value);
    }
  }

  /** Every module's package builds, every text compiles, and the artifacts are the chain's. */
  predicate Made(hash: Hasher, build: Builder, modules: seq<string>, account: nat, commit: seq<byte>,
                 artifacts: seq<Artifact>) {
    && AllBuild(build, modules)
    && AllCompile(artifacts)
    && Generated(hash, modules, ScriptChain(hash, Packages(build, modules), account, commit), artifacts)
  }

  /** The loop of `make_framework_upgrade_artifacts`: reverses the modules and links each script to the
      one made before it. It fails exactly when a package does not build or, with any module at all,
      the address or the commit cannot be compiled; otherwise it leaves the chain in reverse deploy
      order. */
  method MakeArtifacts(modules: seq<string>, build: Builder, address: Account, git: string, hash: Hasher)
    returns (r: Option<seq<Artifact>>)
    ensures r.Some? <==> AllBuild(build, modules) && (modules == [] || Compilable(address, git))
    ensures r.Some? ==> Made(hash, build, modules, AccountOf(address), CommitOf(git), r.value)
  {
    var n := |modules|;
    var reversed := seq(n, i requires 0 <= i < n => modules[n - 1 - i]);
    var nextExecutionHash: seq<byte> := [];
    var formatted: seq<Artifact> := [];
    ghost var packages: seq<ReleasePackage> := [];
    ghost var account, commit := AccountOf(address), CommitOf(git);
    MadeNothing(hash, build, modules, account, commit);
    for idx := 0 to n
      invariant idx > 0 ==> Compilable(address, git)
      invariant MadeSoFar(hash, build, modules[n - idx..], packages, account, commit, nextExecutionHash, formatted)
    {
      assert reversed[idx] == modules[n - 1 - idx];
      var step := MakeNext(reversed[idx], modules, n - 1 - idx, build, address, git, hash, nextExecutionHash,
                           formatted, packages);
      if step.None? { return None; }
      var a := step.value;
      nextExecutionHash := a.hash;
      formatted := formatted + [a];
      packages := [build(a.name).value] + packages;
    }
    assert modules[0..] == modules;
    MadeAll(hash, build, modules, packages, account, commit, nextExecutionHash, formatted);
    r := Some(formatted);
  }

  lemma MadeNothing(hash: Hasher, build: Builder, modules: seq<string>, account: nat, commit: seq<byte>)
    ensures MadeSoFar(hash, build, modules[|modules|..], [], account, commit, [], [])
  {
  }

  lemma MadeAll(hash: Hasher, build: Builder, modules: seq<string>, packages: seq<ReleasePackage>,
                account: nat, commit: seq<byte>, next: seq<byte>, made: seq<Artifact>)
    requires MadeSoFar(hash, build, modules, packages, account, commit, next, made)
    ensures Made(hash, build, modules, account, commit, made)
  {
    BuiltAll(build, modules, packages);
  }

  lemma ChainGrows(hash: Hasher, modules: seq<string>, i: nat, packages: seq<ReleasePackage>, package: ReleasePackage,
                   account: nat, commit: seq<byte>, made: seq<Artifact>, a: Artifact)
    requires i < |modules|
    requires Generated(hash, modules[i + 1..], ScriptChain(hash, packages, account, commit), made)
    requires a.name == modules[i] && a.hash == hash(a.code)
    requires a.code == StepScript(package, account, Link(hash, ScriptChain(hash, packages, account, commit)), commit)
    ensures var chain := ScriptChain(hash, [package] + packages, account, commit);
            a.hash == Link(hash, chain) && Generated(hash, modules[i..], chain, made + [a])
  {
    var later := ScriptChain(hash, packages, account, commit);
    assert ([package] + packages)[1..] == packages;
    assert ScriptChain(hash, [package] + packages, account, commit) == [a.code] + later;
    assert modules[i..] == [modules[i]] + modules[i + 1..];
    GeneratedGrows(hash, modules[i + 1..], later, made, a);
  }

  lemma GeneratedGrows(hash: Hasher, modules: seq<string>, later: seq<Script>, made: seq<Artifact>, a: Artifact)
    requires Generated(hash, modules, later, made) && a.hash == hash(a.code)
    ensures Generated(hash, [a.name] + modules, [a.code] + later, made + [a])
  {
    var here, chain, all := [a.name] + modules, [a.code] + later, made + [a];
    forall k | 0 <= k < |here|
      ensures var b := all[|here| - 1 - k];
              b.name == here[k] && b.code == chain[k] && b.hash == hash(chain[k])
    {
      if k > 0 {
        assert all[|here| - 1 - k] == made[|modules| - 1 - (k - 1)];
      }
    }
  }

  // ----- The whole command -----

  type CommitId = c: seq<byte> | |c| == 20 witness seq(20, _ => 0)

  /** What is found at the framework's path: no repository, one whose head names no commit, or a commit. */
  datatype Repository = NoRepository | NoHead | Head(commit: CommitId)

  /** The commit text for the scripts; `None` is the failed `unwrap` on a missing repository. */
  function GitHead(r: Repository): Option<string> {
    match r
    case NoRepository => None
    case NoHead => Some(NO_COMMIT)
    case Head(commit) => Some(HexText(commit))
  }

  /** The commit text is usable exactly when the head names a commit, and then stands for that commit. */
  lemma GitHeadExact(r: Repository)
    ensures GitHead(r).None? <==> r.NoRepository?
    ensures GitHead(r).Some? ==> (IsHexLiteral(GitHead(r).value) <==> r.Head?)
    ensures r.Head? ==> CommitOf(GitHead(r).value) == r.commit && |GitHead(r).value| == 40
    ensures r.NoHead? ==> GitHead(r) == Some("none")
  {
    match r
    case NoRepository =>
    case NoHead => NoneIsNotHex();
    case Head(commit) => HexTextExact(commit);
  }

  datatype Outcome = Panicked | Failed | Finished(artifacts: seq<Artifact>)

  /** `make_framework_upgrade_artifacts`: panics exactly without a repository, and finishes exactly when
      moreover all packages build and, with any module at all, the head names a commit. The modules
      are the default ones when none are given; every script acts for the core account and records that
      commit. */
  method MakeUpgradeArtifacts(repository: Repository, requested: Option<seq<string>>, build: Builder, hash: Hasher)
    returns (r: Outcome)
    ensures r.Panicked? <==> repository.NoRepository?
    ensures var modules := if requested.Some? then requested.value
                           else ["move-stdlib", "vendor-stdlib", "libra-framework"];
            && (r.Finished? <==>
                  !repository.NoRepository? && AllBuild(build, modules) && (modules == [] || repository.Head?))
            && (r.Finished? && repository.Head? ==>
                  Made(hash, build, modules, 1, repository.commit, r.artifacts))
            && (r.Finished? && modules == [] ==> r.artifacts == [])
  {
    GitHeadExact(repository);
    CoreAddressNamed();
    var git := GitHead(repository);
    if git.None? { return Panicked; }
    var modules := if requested.Some? then requested.value else DEFAULT_CORE_MODULES;
    var made := MakeArtifacts(modules, build, CORE_ADDRESS, git.value, hash);
    r := if made.Some? then Finished(made.value) else Failed;
  }

  // ----- The artifacts, deployed -----

  /** The artifacts' code, from the one made last to the one made first. */
  function DeployOrder(artifacts: seq<Artifact>): seq<Script> {
    seq(|artifacts|, k requires 0 <= k < |artifacts| => artifacts[|artifacts| - 1 - k].code)
  }

  lemma GeneratedIsDeployOrder(hash: Hasher, modules: seq<string>, chain: seq<Script>, artifacts: seq<Artifact>)
    requires modules != [] && Generated(hash, modules, chain, artifacts)
    ensures DeployOrder(artifacts) == chain && artifacts[|artifacts| - 1].hash == hash(chain[0])
  {
    assert artifacts[|modules| - 1 - 0].hash == hash(chain[0]);
  }

  /** Approving the hash of the artifact made last, the proposal can be brought to its end only by
      running the artifacts' code in the reverse of the order they were made, which publishes each
      module's package once, in the caller's order. */
  lemma ArtifactsRunInOrder(hash: Hasher, modules: seq<string>, packages: seq<ReleasePackage>, account: nat,
                            commit: seq<byte>, artifacts: seq<Artifact>, run: seq<Script>)
    requires modules != [] && Generated(hash, modules, ScriptChain(hash, packages, account, commit), artifacts)
    requires NoCollision(hash, run, DeployOrder(artifacts))
    ensures Play(hash, Awaiting(artifacts[|artifacts| - 1].hash), run) == Some(Ended) <==> run == DeployOrder(artifacts)
    ensures run == DeployOrder(artifacts) ==>
              && |PublishedAll(run)| == |packages| == |modules|
              && forall k :: 0 <= k < |packages| ==>
                   PublishedAll(run)[k] == Some((packages[k].metadata, packages[k].code))
  {
    GeneratedIsDeployOrder(hash, modules, ScriptChain(hash, packages, account, commit), artifacts);
    OnlyRun(hash, packages, account, commit, run);
    if run == DeployOrder(artifacts) {
      EndedPublishesAll(hash, packages, account, commit, run);
    }
  }
}
