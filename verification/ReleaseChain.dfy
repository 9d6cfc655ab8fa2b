/** The order of versions and the chain of releases (misc/releaser.py). */
module ReleaseChain {
  import opened Wrappers
  import opened ReleaseVersion

  // ---------- the order ----------

  /** A number or `math.inf`. */
  datatype Extended = Finite(n: nat) | Infinite
  {
    predicate Below(other: Extended) { Finite? && (other.Infinite? || n < other.n) }
  }

  function PreTypeToVal(kind: PreKind): nat
  {
    match kind case Alpha => 1 case Beta => 2 case Candidate => 3
  }

  function PreType(v: Version): Extended
  {
    if v.pre.Some? then Finite(PreTypeToVal(v.pre.value.kind)) else Infinite
  }

  function PreIndex(v: Version): Extended { if v.pre.Some? then Finite(v.pre.value.index) else Infinite }

  function Dev(v: Version): nat { if v.dev.Some? then v.dev.value else 0 }

  /** `__eq__` compares the printed texts. */
  predicate Eq(v: Version, w: Version) { Print(v) == Print(w) }

  /** `__lt__`. */
  predicate Lt(v: Version, w: Version)
  {
    if (v.major, v.minor, v.patch) == (w.major, w.minor, w.patch) then
      if PreType(v) != PreType(w) then PreType(v).Below(PreType(w))
      else if PreIndex(v) != PreIndex(w) then PreIndex(v).Below(PreIndex(w))
      else if Dev(v) != Dev(w) then Dev(v) < Dev(w)
      else v.local.None? && w.local.Some?
    else if v.major != w.major then v.major < w.major
    else if v.minor != w.minor then v.minor < w.minor
    else v.patch < w.patch
  }

  /** `__le__`. */
  predicate Le(v: Version, w: Version) { Eq(v, w) || Lt(v, w) }

  /** What the order looks at, most significant first. */
  function Key(v: Version): (key: seq<nat>)
    ensures |key| == 7
  {
    [v.major, v.minor, v.patch,
     if v.pre.Some? then PreTypeToVal(v.pre.value.kind) else 4,
     if v.pre.Some? then v.pre.value.index else 0,
     Dev(v),
     if v.local.Some? then 1 else 0]
  }

  /** The first place where two keys differ decides. */
  ghost predicate Before(a: seq<nat>, b: seq<nat>)
    requires |a| == |b|
  {
    exists k | 0 <= k < |a| :: a[..k] == b[..k] && a[k] < b[k]
  }

  lemma BeforeAsymmetric(a: seq<nat>, b: seq<nat>)
    requires |a| == |b| && Before(a, b)
    ensures !Before(b, a)
  {
  }

  lemma SmallerKeyIsBefore(v: Version, w: Version)
    requires Lt(v, w)
    ensures Before(Key(v), Key(w))
  {
    var a, b := Key(v), Key(w);
    var k :=
      if v.major != w.major then 0 else if v.minor != w.minor then 1 else if v.patch != w.patch then 2
      else if PreType(v) != PreType(w) then 3 else if PreIndex(v) != PreIndex(w) then 4
      else if Dev(v) != Dev(w) then 5 else 6;
    assert a[k] < b[k];
    assert a[..k] == b[..k];
  }

  /** `__lt__` is the lexicographic order of the keys. */
  lemma LtIsLexicographic(v: Version, w: Version)
    ensures Lt(v, w) <==> Before(Key(v), Key(w))
    ensures !Lt(v, w) && !Lt(w, v) <==> Key(v) == Key(w)
  {
    if Lt(v, w) {
      SmallerKeyIsBefore(v, w);
      BeforeAsymmetric(Key(v), Key(w));
    } else if Lt(w, v) {
      SmallerKeyIsBefore(w, v);
      BeforeAsymmetric(Key(w), Key(v));
    } else {
      UnorderedHaveSameKey(v, w);
    }
  }

  lemma UnorderedHaveSameKey(v: Version, w: Version)
    requires !Lt(v, w) && !Lt(w, v)
    ensures Key(v) == Key(w)
  {
  }

  /** A strict weak order: irreflexive, transitive, and being unordered is transitive too. */
  lemma LtIsStrictWeakOrder(u: Version, v: Version, w: Version)
    ensures !Lt(v, v)
    ensures Lt(u, v) && Lt(v, w) ==> Lt(u, w)
    ensures !Lt(u, v) && !Lt(v, w) ==> !Lt(u, w)
  {
  }

  /** `__le__` leaves two versions unordered exactly when they differ only where the order does not
      look: a missing and a zero development number, or two local parts. */
  lemma UnorderedIff(v: Version, w: Version)
    requires WellFormed(v) && WellFormed(w)
    ensures !Le(v, w) && !Le(w, v) <==> v != w && Key(v) == Key(w)
    ensures Key(v) == Key(w) <==> v.(dev := None, local := None) == w.(dev := None, local := None)
                                  && Dev(v) == Dev(w) && (v.local.Some? <==> w.local.Some?)
  {
    hide Print;
    PrintIsInjective(v, w);
    LtIsLexicographic(v, w);
    if Key(v) == Key(w) { SameKey(v, w); }
  }

  lemma SameKey(v: Version, w: Version)
    requires Key(v) == Key(w)
    ensures v.(dev := None, local := None) == w.(dev := None, local := None)
    ensures Dev(v) == Dev(w) && (v.local.Some? <==> w.local.Some?)
  {
  }

  // ---------- one build ----------

  datatype Target = Current | Explicit(raw: string) | Missing
  datatype Request = Request(target: Target, skipTag: bool)

  datatype Refusal = InvalidArgument | InvalidCode | MissingVersion | NotNewer | Development
  datatype Outcome = Released(version: Version) | Refused(reason: Refusal)

  /** The version written in the sources and the tags of the repository. */
  datatype Repo = Repo(code: string, tags: seq<string>)

  /** Which version a build releases, if any. */
  function Choose(code: string, target: Target): Outcome
  {
    if target.Explicit? && Parse(target.raw).None? then Refused(InvalidArgument)
    else if Parse(code).None? then Refused(InvalidCode)
    else
      var current := Parse(code).value;
      match target
      case Missing => Refused(MissingVersion)
      case Current =>
        if current.dev.Some? then Refused(Development) else Released(current.(local := None))
      case Explicit(raw) =>
        ChooseExplicit(current, Parse(raw).value)
  }

  function ChooseExplicit(current: Version, version: Version): Outcome
  {
    if !Eq(current.(local := None), version) && Le(version, current) then Refused(NotNewer)
    else if version.dev.Some? then Refused(Development)
    else Released(version)
  }

  /** `generate_next_dev_version`. */
  function NextDev(version: Version): Version
  {
    if version.pre.None?
    then version.(local := Some("dev"), patch := version.patch + 1, pre := Some(Prerelease(Alpha, 0)))
    else version.(local := Some("dev"), pre := Some(version.pre.value.(index := version.pre.value.index + 1)))
  }

  function Tag(version: Version): string { "v" + Print(version) }

  /** The repository after a build. */
  function Built(repo: Repo, request: Request): Repo
  {
    match Choose(repo.code, request.target)
    case Refused(_) => repo
    case Released(version) =>
      Repo(Print(NextDev(version)), if request.skipTag then repo.tags else repo.tags + [Tag(version)])
  }

  class Repository {
    var code: string
    var tags: seq<string>

    function State(): Repo
      reads this
    {
      Repo(code, tags)
    }

    constructor (code: string, tags: seq<string>)
      ensures State() == Repo(code, tags)
    {
      this.code, this.tags := code, tags;
    }

    /** `generate_next_dev_version` on a copy that is updated field by field. */
    static method GenerateNextDevVersion(version: Version) returns (next: Version)
      ensures next == NextDev(version)
      ensures Lt(version, next.(local := None)) && next.dev == version.dev && next.local == Some("dev")
    {
      next := version.(local := Some("dev"));
      if next.pre.None? {
        next := next.(patch := next.patch + 1);
        next := next.(pre := Some(Prerelease(Alpha, 0)));
      } else {
        next := next.(pre := Some(Prerelease(next.pre.value.kind, next.pre.value.index + 1)));
      }
    }

    /** `build_main`: the release commit, its tag, then the commit that opens the next version. */
    method Build(request: Request) returns (outcome: Outcome)
      modifies this
      ensures outcome == Choose(old(code), request.target)
      ensures State() == Built(old(State()), request)
    {
      hide Parse, Print, Lt;
      if request.target.Explicit? && Parse(request.target.raw).None? { return Refused(InvalidArgument); }
      if Parse(code).None? { return Refused(InvalidCode); }
      var current := Parse(code).value;
      var release;
      match request.target {
        case Missing =>
          return Refused(MissingVersion);
        case Current =>
          release := current.(local := None);
        case Explicit(raw) =>
          release := Parse(raw).value;
          if Eq(current.(local := None), release) {
          } else if Le(release, current) {
            return Refused(NotNewer);
          }
      }
      if release.dev.Some? { return Refused(Development); }
      code := Print(release);
      if !request.skipTag { tags := tags + [Tag(release)]; }
      var next := GenerateNextDevVersion(release);
      code := Print(next);
      outcome := Released(release);
    }
  }

  /** Which explicit versions a build accepts: what the sources announce, whatever is newer, and also
      whatever the order cannot tell from the version of the sources. */
  lemma AcceptedIff(current: Version, version: Version)
    requires WellFormed(current) && WellFormed(version)
    ensures ChooseExplicit(current, version) == Released(version)
            <==> && version.dev.None?
                 && (|| version == current.(local := None)
                     || Lt(current, version)
                     || (version != current && Key(version) == Key(current)))
  {
    hide Print, Lt, Key;
    EqIffSame(current.(local := None), version);
    EqIffSame(version, current);
    LtIsLexicographic(version, current);
    AboveIsNotBelow(current, version);
  }

  /** A release that is not newer than the sources, and was not announced by them. */
  lemma AcceptsWhatIsNotNewer()
    ensures var version := Version(1, 2, 3, None, None, Some("foo"));
            && Parse("1.2.3+dev").Some? && Choose("1.2.3+dev", Explicit("1.2.3+foo")) == Released(version)
            && !Lt(Parse("1.2.3+dev").value, version) && version != Parse("1.2.3+dev").value.(local := None)
  {
    hide Parse, Print, IsLocal, LooksLikeDev;
    var current, version := Version(1, 2, 3, None, None, Some("dev")), Version(1, 2, 3, None, None, Some("foo"));
    PrintLocal("dev");
    PrintLocal("foo");
    assert "1.2.3+" + "dev" == "1.2.3+dev" && "1.2.3+" + "foo" == "1.2.3+foo";
    DevIsLocal();
    FooIsLocal();
    ParsePrinted(current);
    ParsePrinted(version);
    AcceptedIff(current, version);
  }

  lemma PrintLocal(local: string)
    ensures Print(Version(1, 2, 3, None, None, Some(local))) == "1.2.3+" + local
  {
    assert Decimal(1) + "." + Decimal(2) + "." + Decimal(3) == "1.2.3";
  }

  lemma FooIsLocal()
    ensures IsLocal("foo") && !LooksLikeDev(Some("foo"))
  {
    assert "o"[1..] == "" && IsLocalRest("o");
    assert "oo"[1..] == "o" && IsLocalRest("oo");
    assert "foo"[1..] == "oo";
  }

  lemma EqIffSame(v: Version, w: Version)
    requires WellFormed(v) && WellFormed(w)
    ensures Eq(v, w) <==> v == w
  {
    PrintIsInjective(v, w);
  }

  lemma AboveIsNotBelow(v: Version, w: Version)
    ensures Lt(v, w) ==> !Lt(w, v)
  {
  }

  // ---------- chains of builds ----------

  lemma NextIsAbove(version: Version)
    ensures Lt(version, NextDev(version).(local := None)) && Lt(NextDev(version).(local := None), NextDev(version))
  {
  }

  lemma DevIsLocal()
    ensures IsLocal("dev") && !LooksLikeDev(Some("dev"))
  {
  }

  /** What a build releases, tagged or written, reads back as itself. */
  lemma ReleasedReadsBack(code: string, target: Target)
    requires Choose(code, target).Released?
    ensures var version := Choose(code, target).version;
            Parse(Tag(version)) == Some(version) && Parse(Print(NextDev(version))) == Some(NextDev(version))
  {
    hide Parse, Print, IsLocal, Lt;
    var version := Choose(code, target).version;
    ParsedIsStable(code);
    if target.Explicit? { ParsedIsStable(target.raw); }
    DevIsLocal();
    ParsePrinted(version);
    ParsePrinted(NextDev(version));
  }

  lemma BelowTransitive(u: Version, v: Version, w: Version)
    requires Lt(u, v) && (Lt(v, w) || !Lt(w, v))
    ensures Lt(u, w)
  {
  }

  /** A build never releases less than what the sources announce. */
  lemma ReleasedIsNotBelow(code: string, target: Target)
    requires Choose(code, target).Released?
    ensures Parse(code).Some? && !Lt(Choose(code, target).version, Parse(code).value.(local := None))
  {
    hide Parse, Print;
    var current, version := Parse(code).value, Choose(code, target).version;
    var announced := current.(local := None);
    LtIsStrictWeakOrder(announced, announced, announced);
    if target.Explicit? {
      if Eq(announced, version) {
        EqNotBelow(code, target.raw);
      } else if Lt(version, announced) {
        BelowTransitive(version, announced, current);
        assert false;
      }
    }
  }

  lemma EqNotBelow(code: string, raw: string)
    requires Parse(code).Some? && Parse(raw).Some? && Eq(Parse(code).value.(local := None), Parse(raw).value)
    ensures Parse(raw).value == Parse(code).value.(local := None)
  {
    ParsedIsStable(code);
    ParsedIsStable(raw);
    hide Parse, Print;
    PrintIsInjective(Parse(code).value.(local := None), Parse(raw).value);
  }

  /** Every build that releases something moves the sources to a newer version. */
  lemma CodeMovesForward(repo: Repo, request: Request)
    requires Choose(repo.code, request.target).Released?
    ensures var after := Built(repo, request);
            && Parse(repo.code).Some? && Parse(after.code).Some?
            && Lt(Choose(repo.code, request.target).version, Parse(after.code).value.(local := None))
            && Lt(Parse(repo.code).value.(local := None), Parse(after.code).value.(local := None))
  {
    var version := Choose(repo.code, request.target).version;
    ReleasedReadsBack(repo.code, request.target);
    ReleasedIsNotBelow(repo.code, request.target);
    NextIsAbove(version);
    hide Parse, Print, Lt;
    NotBelowTransitive(Parse(repo.code).value.(local := None), version, NextDev(version).(local := None));
  }

  lemma NotBelowTransitive(u: Version, v: Version, w: Version)
    requires !Lt(v, u) && Lt(v, w)
    ensures Lt(u, w)
  {
  }

  ghost predicate TagBelow(tag: string, other: string)
  {
    Parse(tag).Some? && Parse(other).Some? && Lt(Parse(tag).value, Parse(other).value)
  }

  ghost predicate Increasing(tags: seq<string>)
  {
    forall i, j | 0 <= i < j < |tags| :: TagBelow(tags[i], tags[j])
  }

  /** Every tag is older than what the sources announce. */
  ghost predicate Ahead(repo: Repo)
  {
    forall i | 0 <= i < |repo.tags| ::
      && Parse(repo.tags[i]).Some? && Parse(repo.code).Some?
      && Lt(Parse(repo.tags[i]).value, Parse(repo.code).value.(local := None))
  }

  lemma AppendIncreasing(tags: seq<string>, tag: string)
    requires Increasing(tags) && forall i | 0 <= i < |tags| :: TagBelow(tags[i], tag)
    ensures Increasing(tags + [tag])
  {
  }

  lemma BuildKeepsOrder(repo: Repo, request: Request)
    requires Increasing(repo.tags) && Ahead(repo)
    ensures Increasing(Built(repo, request).tags) && Ahead(Built(repo, request))
  {
    hide Parse, Print, Lt, Choose, NextDev, Increasing;
    if Choose(repo.code, request.target).Released? {
      var version := Choose(repo.code, request.target).version;
      ReleasedReadsBack(repo.code, request.target);
      ReleasedIsNotBelow(repo.code, request.target);
      var announced := Parse(repo.code).value.(local := None);
      CodeMovesForward(repo, request);
      ReleaseKeepsOrder(repo, announced, version, Built(repo, request).code, Tag(version));
    }
  }

  lemma ReleaseKeepsOrder(repo: Repo, announced: Version, version: Version, code: string, tag: string)
    requires Increasing(repo.tags) && Ahead(repo)
    requires Parse(repo.code).Some? && announced == Parse(repo.code).value.(local := None) && !Lt(version, announced)
    requires Parse(tag) == Some(version)
    requires Parse(code).Some? && Lt(version, Parse(code).value.(local := None))
    ensures Increasing(repo.tags + [tag]) && Ahead(Repo(code, repo.tags)) && Ahead(Repo(code, repo.tags + [tag]))
  {
    hide Parse, Lt;
    forall i | 0 <= i < |repo.tags| ensures TagBelow(repo.tags[i], tag) {
      BelowTransitive(Parse(repo.tags[i]).value, announced, version);
    }
    AppendIncreasing(repo.tags, tag);
    var next := Parse(code).value.(local := None);
    forall i | 0 <= i < |repo.tags| ensures Parse(repo.tags[i]).Some? && Lt(Parse(repo.tags[i]).value, next) {
      LtIsStrictWeakOrder(Parse(repo.tags[i]).value, version, next);
    }
  }

  function BuiltAll(repo: Repo, requests: seq<Request>): Repo
  {
    if requests == [] then repo else Built(BuiltAll(repo, requests[..|requests| - 1]), requests[|requests| - 1])
  }

  /** Over any sequence of builds, starting from any sources, each tag is above all earlier ones. */
  lemma {:induction false} TagsIncrease(code: string, requests: seq<Request>)
    ensures Increasing(BuiltAll(Repo(code, []), requests).tags) && Ahead(BuiltAll(Repo(code, []), requests))
  {
    if requests != [] {
      var k := |requests| - 1;
      TagsIncrease(code, requests[..k]);
      BuildKeepsOrder(BuiltAll(Repo(code, []), requests[..k]), requests[k]);
    }
  }

  // ---------- in so many words ----------

  /** The fields of the next version. */
  lemma NextDevFields(version: Version)
    ensures var next := NextDev(version);
            && next.major == version.major && next.minor == version.minor
            && next.dev == version.dev && next.local == Some("dev")
            && (version.pre.None? ==> next.patch == version.patch + 1 && next.pre == Some(Prerelease(Alpha, 0)))
            && (version.pre.Some? ==>
                  && next.patch == version.patch && next.pre.Some?
                  && next.pre.value.kind == version.pre.value.kind
                  && next.pre.value.index == version.pre.value.index + 1)
  {
  }

  /** No version that could be released, without a development number and a local part, lies between a
      release and the version that its successor announces. */
  lemma NextDevIsNext(version: Version, between: Version)
    requires version.dev.None? && between.dev.None? && between.local.None?
    ensures !(Lt(version, between) && Lt(between, NextDev(version).(local := None)))
  {
  }

  /** Exactly what a build does, for each way to ask for one. */
  lemma OutcomesMean(code: string, target: Target)
    ensures var outcome := Choose(code, target);
            && (outcome == Refused(InvalidArgument) <==> target.Explicit? && Parse(target.raw).None?)
            && (outcome == Refused(InvalidCode) <==>
                  Parse(code).None? && !(target.Explicit? && Parse(target.raw).None?))
            && (outcome == Refused(MissingVersion) <==> target.Missing? && Parse(code).Some?)
            && (target.Current? && Parse(code).Some? ==>
                  outcome == if Parse(code).value.dev.Some? then Refused(Development)
                             else Released(Parse(code).value.(local := None)))
            && (target.Explicit? && Parse(code).Some? && Parse(target.raw).Some? ==>
                  var current, version := Parse(code).value, Parse(target.raw).value;
                  && (outcome == Refused(NotNewer) <==>
                        version != current.(local := None) && (version == current || Lt(version, current)))
                  && (outcome == Refused(Development) <==> outcome != Refused(NotNewer) && version.dev.Some?)
                  && (outcome.Released? ==> outcome.version == version))
  {
    hide Parse, Print, Lt;
    if target.Explicit? && Parse(code).Some? && Parse(target.raw).Some? {
      ParsedIsStable(code);
      ParsedIsStable(target.raw);
      EqIffSame(Parse(code).value.(local := None), Parse(target.raw).value);
      EqIffSame(Parse(target.raw).value, Parse(code).value);
    }
  }

  /** What a build leaves: sources that read as the next version, and a tag that begins with `v` and reads
      as the release, unless tags are skipped. */
  lemma BuiltMeans(repo: Repo, request: Request)
    ensures var outcome, after := Choose(repo.code, request.target), Built(repo, request);
            if outcome.Refused? then after == repo
            else && Parse(after.code) == Some(NextDev(outcome.version))
                 && if request.skipTag then after.tags == repo.tags
                    else |after.tags| == |repo.tags| + 1 && after.tags[..|repo.tags|] == repo.tags
                         && after.tags[|repo.tags|] != "" && after.tags[|repo.tags|][0] == 'v'
                         && Parse(after.tags[|repo.tags|]) == Some(outcome.version)
  {
    hide Parse, Print, Choose, NextDev;
    if Choose(repo.code, request.target).Released? { ReleasedReadsBack(repo.code, request.target); }
  }

  function V(patch: nat, pre: Option<Prerelease>, dev: Option<nat>, local: Option<string>): Version
  {
    Version(1, 2, patch, pre, dev, local)
  }

  /** The examples that stand beside the order in the source. */
  lemma OrderExamples(local: string)
    ensures Lt(V(3, None, None, None), V(4, None, None, None))
    ensures Lt(V(3, Some(Prerelease(Alpha, 1)), None, None), V(3, Some(Prerelease(Alpha, 2)), None, None))
    ensures Lt(V(3, Some(Prerelease(Alpha, 10)), None, None), V(3, Some(Prerelease(Beta, 1)), None, None))
    ensures Lt(V(3, Some(Prerelease(Beta, 10)), None, None), V(3, Some(Prerelease(Candidate, 1)), None, None))
    ensures Lt(V(3, Some(Prerelease(Beta, 1)), None, None), V(3, Some(Prerelease(Beta, 1)), None, Some(local)))
    ensures Lt(V(3, Some(Prerelease(Candidate, 1)), None, None), V(3, None, None, None))
    ensures Lt(V(3, None, None, None), V(3, None, None, Some(local)))
    ensures Lt(V(3, None, None, Some(local)), V(4, Some(Prerelease(Candidate, 1)), None, None))
    ensures Lt(V(4, Some(Prerelease(Candidate, 1)), None, Some(local)), V(4, None, None, None))
    ensures Lt(V(3, None, None, None), V(3, None, Some(10), Some(local)))
    ensures Lt(V(3, None, Some(10), Some(local)), V(4, Some(Prerelease(Beta, 42)), None, None))
    ensures Lt(V(3, Some(Prerelease(Beta, 10)), None, Some(local)), V(3, Some(Prerelease(Candidate, 1)), None,
            Some(local)))
  {
  }
}
