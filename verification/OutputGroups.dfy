/** MediaConvert output groups: a job's outputs grouped by container, and the files a finished job
    is said to have. */
module OutputGroups {
  import opened Wrappers
  import opened MapOrders
  import opened PathNames

  datatype Container = Cmfc | M3u8 | Mp4 | Mov | Webm | Mxf | Unsupported(name: string)

  /** What a preset's output settings come to. */
  datatype Settings = Invalid | NoContainer | In(container: Container)

  datatype JobOutput = JobOutput(presetName: string, fileName: string)

  datatype Output = Output(nameModifier: string, extension: string, container: Container)

  datatype GroupType = Cmaf | Hls | File

  datatype Group = Group(kind: GroupType, destination: string, outputs: seq<Output>)

  datatype GroupError = PresetNotFound | BadSettings | MissingContainer | ContainerNotSupported

  type Presets = map<string, Settings>

  function RemoveDots(s: string): string {
    if s == "" then "" else (if s[0] == '.' then "" else [s[0]]) + RemoveDots(s[1..])
  }

  /** How a file name becomes a name modifier and an extension. */
  type Naming = string -> (string, string)

  function Names(fileName: string): (string, string) {
    (NameModifier(fileName), RemoveDots(Ext(fileName)))
  }

  lemma {:induction false} NothingToRemove(s: string)
    requires '.' !in s
    ensures RemoveDots(s) == s
  {
    if s == "" {
    } else {
      assert s[0] in s && forall c :: c in s[1..] ==> c in s;
      NothingToRemove(s[1..]);
    }
  }

  /** The provider is given the extension of a file name without its dot, if it has one. */
  lemma {:induction false} ExtensionIsGivenWithoutDot(fileName: string)
    ensures Names(fileName).1 == if Ext(fileName) == "" then "" else Ext(fileName)[1..]
  {
    ExtIsTheLast(fileName);
    if Ext(fileName) != "" {
      NothingToRemove(Ext(fileName)[1..]);
    }
  }

  function OutputFor(names: Naming, fileName: string, c: Container): Output {
    Output(names(fileName).0, names(fileName).1, c)
  }

  // ---------------------------------------------------------------- grouping

  predicate Resolved(o: JobOutput, presets: Presets) {
    o.presetName in presets && presets[o.presetName].In?
  }

  predicate AllResolved(outputs: seq<JobOutput>, presets: Presets) {
    forall i :: 0 <= i < |outputs| ==> Resolved(outputs[i], presets)
  }

  function ContainerOf(o: JobOutput, presets: Presets): Container
    requires Resolved(o, presets)
  {
    presets[o.presetName].container
  }

  /** The outputs with a container, in job order. */
  function Of(outputs: seq<JobOutput>, presets: Presets, c: Container): seq<JobOutput>
    requires AllResolved(outputs, presets)
  {
    if outputs == [] then []
    else
      var n := |outputs| - 1;
      Of(outputs[..n], presets, c) + if ContainerOf(outputs[n], presets) == c then [outputs[n]] else []
  }

  function OutputsFor(names: Naming, os: seq<JobOutput>, c: Container): (mcs: seq<Output>)
    ensures |mcs| == |os| && forall i :: 0 <= i < |os| ==> mcs[i] == OutputFor(names, os[i].fileName, c)
  {
    if os == [] then [] else OutputsFor(names, os[..|os| - 1], c) + [OutputFor(names, os[|os| - 1].fileName, c)]
  }

  predicate Supported(c: Container) {
    !c.Unsupported?
  }

  function GroupFor(names: Naming, os: seq<JobOutput>, c: Container, destination: string): Group
    requires Supported(c)
  {
    match c
    case Cmfc => Group(Cmaf, destination, OutputsFor(names, os, c))
    case M3u8 => Group(Hls, destination, OutputsFor(names, os, c))
    case _ => Group(File, destination + "m", OutputsFor(names, os, c))
  }

  /** The containers that occur. */
  ghost function Containers(outputs: seq<JobOutput>, presets: Presets): set<Container>
    requires AllResolved(outputs, presets)
  {
    set i | 0 <= i < |outputs| :: ContainerOf(outputs[i], presets)
  }

  lemma OneMoreContainer(outputs: seq<JobOutput>, presets: Presets, o: JobOutput)
    requires AllResolved(outputs, presets) && Resolved(o, presets)
    ensures AllResolved(outputs + [o], presets)
    ensures Containers(outputs + [o], presets) == Containers(outputs, presets) + {ContainerOf(o, presets)}
  {
    var more := outputs + [o];
    assert more[|outputs|] == o;
    forall c | c in Containers(outputs, presets) ensures c in Containers(more, presets) {
      var i :| 0 <= i < |outputs| && ContainerOf(outputs[i], presets) == c;
      assert more[i] == outputs[i];
    }
  }

  ghost predicate Collected(groups: map<Container, seq<JobOutput>>, outputs: seq<JobOutput>, presets: Presets)
    requires AllResolved(outputs, presets)
  {
    groups.Keys == Containers(outputs, presets)
    && forall c :: Listed(groups, c) == Of(outputs, presets, c)
  }

  function Listed(groups: map<Container, seq<JobOutput>>, c: Container): seq<JobOutput> {
    if c in groups then groups[c] else []
  }

  lemma CollectOne(groups: map<Container, seq<JobOutput>>, outputs: seq<JobOutput>, presets: Presets, o: JobOutput)
    requires AllResolved(outputs, presets) && Resolved(o, presets) && Collected(groups, outputs, presets)
    ensures AllResolved(outputs + [o], presets)
    ensures var c := ContainerOf(o, presets); Collected(groups[c := Listed(groups, c) + [o]], outputs + [o], presets)
  {
    OneMoreContainer(outputs, presets, o);
    assert (outputs + [o])[..|outputs|] == outputs;
    var c := ContainerOf(o, presets);
    var more := groups[c := Listed(groups, c) + [o]];
    forall d ensures Listed(more, d) == Of(outputs + [o], presets, d) {
      assert Listed(groups, d) == Of(outputs, presets, d);
    }
  }

  lemma CollectNext(groups: map<Container, seq<JobOutput>>, outputs: seq<JobOutput>, presets: Presets, i: nat)
    requires i < |outputs| && AllResolved(outputs[..i], presets) && Resolved(outputs[i], presets)
    requires Collected(groups, outputs[..i], presets)
    ensures AllResolved(outputs[..i + 1], presets)
    ensures var c := ContainerOf(outputs[i], presets);
      Collected(groups[c := Listed(groups, c) + [outputs[i]]], outputs[..i + 1], presets)
  {
    CollectOne(groups, outputs[..i], presets, outputs[i]);
    assert outputs[..i + 1] == outputs[..i] + [outputs[i]];
  }

  lemma OneUnresolved(outputs: seq<JobOutput>, presets: Presets, i: nat)
    requires i < |outputs| && !Resolved(outputs[i], presets)
    ensures !AllResolved(outputs, presets)
  {
  }

  method CollectByContainer(outputs: seq<JobOutput>, presets: Presets)
      returns (r: Result<map<Container, seq<JobOutput>>, GroupError>)
    ensures r.Success? <==> AllResolved(outputs, presets)
    ensures r.Success? ==> Collected(r.value, outputs, presets)
  {
    var groups: map<Container, seq<JobOutput>> := map[];
    for i := 0 to |outputs|
      invariant AllResolved(outputs[..i], presets) && Collected(groups, outputs[..i], presets)
    {
      var o := outputs[i];
      if !Resolved(o, presets) {
        OneUnresolved(outputs, presets, i);
      } else {
        CollectNext(groups, outputs, presets, i);
      }
      if o.presetName !in presets {
        return Failure(PresetNotFound);
      }
      var settings := presets[o.presetName];
      if settings.Invalid? {
        return Failure(BadSettings);
      }
      if settings.NoContainer? {
        return Failure(MissingContainer);
      }
      groups := groups[settings.container := Listed(groups, settings.container) + [o]];
    }
    assert outputs[..|outputs|] == outputs;
    r := Success(groups);
  }

  /** What a group is for its container: its kind, where it goes, and one output per job output. */
  ghost predicate Describes(g: Group, names: Naming, os: seq<JobOutput>, c: Container, destination: string) {
    && (match c
        case Cmfc => g.kind == Cmaf && g.destination == destination
        case M3u8 => g.kind == Hls && g.destination == destination
        case Mp4 => g.kind == File && g.destination == destination + "m"
        case Mov => g.kind == File && g.destination == destination + "m"
        case Webm => g.kind == File && g.destination == destination + "m"
        case Mxf => g.kind == File && g.destination == destination + "m"
        case Unsupported(_) => false)
    && |g.outputs| == |os|
    && forall i :: 0 <= i < |os| ==>
         && g.outputs[i].container == c
         && g.outputs[i].nameModifier == names(os[i].fileName).0
         && g.outputs[i].extension == names(os[i].fileName).1
  }

  /** The groups in an order in which the map of containers may be read. */
  ghost predicate Grouped(names: Naming, groups: seq<Group>, order: seq<Container>, outputs: seq<JobOutput>,
          presets: Presets, destination: string)
    requires AllResolved(outputs, presets)
  {
    |groups| == |order| && forall k :: 0 <= k < |order| ==>
      Supported(order[k]) && Describes(groups[k], names, Of(outputs, presets, order[k]), order[k], destination)
  }

  lemma {:induction false} OneMoreGroup(names: Naming, groups: seq<Group>, order: seq<Container>,
          outputs: seq<JobOutput>, presets: Presets, destination: string, c: Container)
    requires AllResolved(outputs, presets) && Grouped(names, groups, order, outputs, presets, destination)
    requires Supported(c)
    ensures Grouped(names, groups + [GroupFor(names, Of(outputs, presets, c), c, destination)], order + [c],
                    outputs, presets, destination)
  {
  }

  method OutputGroupsFrom(names: Naming, outputs: seq<JobOutput>, presets: Presets, destination: string)
      returns (r: Result<seq<Group>, GroupError>, ghost order: seq<Container>)
    ensures r.Success? <==>
      AllResolved(outputs, presets) && forall c :: c in Containers(outputs, presets) ==> Supported(c)
    ensures r.Success? ==> Ordering(order, Containers(outputs, presets))
    ensures r.Success? ==> Grouped(names, r.value, order, outputs, presets, destination)
  {
    order := [];
    var collected := CollectByContainer(outputs, presets);
    if collected.Failure? {
      return Failure(collected.error), order;
    }
    var byContainer := collected.value;
    var groups: seq<Group> := [];
    var pending := byContainer.Keys;
    while pending != {}
      invariant pending <= byContainer.Keys && Ordering(order, byContainer.Keys - pending)
      invariant Grouped(names, groups, order, outputs, presets, destination)
      decreases |pending|
    {
      var c :| c in pending;
      if c.Unsupported? {
        return Failure(ContainerNotSupported), order;
      }
      pending := pending - {c};
      assert Listed(byContainer, c) == Of(outputs, presets, c);
      OneMoreGroup(names, groups, order, outputs, presets, destination, c);
      groups := groups + [GroupFor(names, byContainer[c], c, destination)];
      order := order + [c];
    }
    assert byContainer.Keys - {} == byContainer.Keys;
    r := Success(groups);
  }

  // ---------------------------------------------------------------- the partition

  /** A stable part: the outputs of one container at ascending places of the job. */
  ghost predicate Places(places: seq<nat>, outputs: seq<JobOutput>, presets: Presets, c: Container)
    requires AllResolved(outputs, presets)
  {
    && |places| == |Of(outputs, presets, c)|
    && (forall k :: 0 <= k < |places| ==> places[k] < |outputs| && outputs[places[k]] == Of(outputs, presets, c)[k])
    && (forall k, l :: 0 <= k < l < |places| ==> places[k] < places[l])
    && (forall i :: 0 <= i < |outputs| ==> (i in places <==> ContainerOf(outputs[i], presets) == c))
  }

  /** Each output has exactly one place, in its container's group, and each group is in job order. */
  lemma {:induction false} GroupingIsAStablePartition(outputs: seq<JobOutput>, presets: Presets, c: Container)
      returns (places: seq<nat>)
    requires AllResolved(outputs, presets)
    ensures Places(places, outputs, presets, c)
  {
    if outputs == [] {
      places := [];
    } else {
      var n := |outputs| - 1;
      places := GroupingIsAStablePartition(outputs[..n], presets, c);
      if ContainerOf(outputs[n], presets) == c {
        places := places + [n];
      }
    }
  }

  // ---------------------------------------------------------------- the files of a finished job

  datatype OutputFile = OutputFile(path: string, container: string)

  function FileExtension(c: Container): Option<string> {
    match c
    case Mp4 => Some(".mp4")
    case Mov => Some(".mov")
    case Webm => Some(".webm")
    case _ => None
  }

  function Identifier(c: Container): string {
    match c case Mp4 => "mp4" case Mov => "mov" case Webm => "webm" case _ => ""
  }

  function FileOf(o: Output, destination: string): seq<OutputFile> {
    match FileExtension(o.container)
    case None => []
    case Some(ext) => [OutputFile(destination + o.nameModifier + ext, Identifier(o.container))]
  }

  function FilesOfGroup(os: seq<Output>, destination: string): seq<OutputFile> {
    if os == [] then [] else FilesOfGroup(os[..|os| - 1], destination) + FileOf(os[|os| - 1], destination)
  }

  function FilesOf(groups: seq<Group>): seq<OutputFile> {
    if groups == [] then []
    else
      var g := groups[|groups| - 1];
      FilesOf(groups[..|groups| - 1]) + if g.kind.File? then FilesOfGroup(g.outputs, g.destination) else []
  }

  method JobFilesFrom(groups: seq<Group>) returns (files: seq<OutputFile>)
    ensures files == FilesOf(groups)
  {
    files := [];
    for i := 0 to |groups|
      invariant files == FilesOf(groups[..i])
    {
      assert groups[..i + 1][..i] == groups[..i];
      if !groups[i].kind.File? {
        continue;
      }
      ghost var before := files;
      for j := 0 to |groups[i].outputs|
        invariant files == before + FilesOfGroup(groups[i].outputs[..j], groups[i].destination)
      {
        assert groups[i].outputs[..j + 1][..j] == groups[i].outputs[..j];
        var output := groups[i].outputs[j];
        var extension := FileExtension(output.container);
        if extension.None? {
          continue;
        }
        files := files + [OutputFile(groups[i].destination + output.nameModifier + extension.value,
                                    Identifier(output.container))];
      }
      assert groups[i].outputs[..|groups[i].outputs|] == groups[i].outputs;
    }
    assert groups[..|groups|] == groups;
  }

  /** The file that a job output of a file container is listed as. */
  function ListedFile(names: Naming, fileName: string, c: Container, destination: string): OutputFile
    requires Listable(c)
  {
    var path := destination + "m" + names(fileName).0;
    match c
    case Mp4 => OutputFile(path + ".mp4", "mp4")
    case Mov => OutputFile(path + ".mov", "mov")
    case Webm => OutputFile(path + ".webm", "webm")
  }

  /** The containers whose files are listed; those of cmfc, m3u8 and mxf outputs are not. */
  predicate Listable(c: Container) {
    c.Mp4? || c.Mov? || c.Webm?
  }

  function ListedFiles(names: Naming, os: seq<JobOutput>, c: Container, destination: string): (files: seq<OutputFile>)
    ensures |files| == if Listable(c) then |os| else 0
    ensures Listable(c) ==>
      forall i :: 0 <= i < |os| ==> files[i] == ListedFile(names, os[i].fileName, c, destination)
  {
    if os == [] || !Listable(c) then []
    else ListedFiles(names, os[..|os| - 1], c, destination) + [ListedFile(names, os[|os| - 1].fileName, c, destination)]
  }

  /** What one output of a group adds to the files, as MediaConvert has it and as the job's output says it. */
  lemma OneMoreIsListed(names: Naming, mc: Output, o: JobOutput, c: Container, destination: string)
    requires mc.container == c && mc.nameModifier == names(o.fileName).0
    ensures FileExtension(c).Some? <==> Listable(c)
    ensures Listable(c) ==>
      OutputFile(destination + "m" + mc.nameModifier + FileExtension(mc.container).value, Identifier(mc.container))
        == ListedFile(names, o.fileName, c, destination)
  {
  }

  lemma {:induction false} GroupIsListed(names: Naming, mcs: seq<Output>, os: seq<JobOutput>, c: Container,
                                         destination: string)
    requires |mcs| == |os|
    requires forall i :: 0 <= i < |os| ==>
      mcs[i].container == c && mcs[i].nameModifier == names(os[i].fileName).0
    ensures FilesOfGroup(mcs, destination + "m") == ListedFiles(names, os, c, destination)
  {
    if os == [] {
    } else {
      var n := |os| - 1;
      GroupIsListed(names, mcs[..n], os[..n], c, destination);
      OneMoreIsListed(names, mcs[n], os[n], c, destination);
      var before := FilesOfGroup(mcs[..n], destination + "m");
      assert Listable(c) ==>
        FilesOfGroup(mcs, destination + "m") == before + [ListedFile(names, os[n].fileName, c, destination)];
      assert !Listable(c) ==> FilesOfGroup(mcs, destination + "m") == before;
    }
  }

  /** The parts of the containers in `order`, one after the other. */
  function Parts(order: seq<Container>, part: Container -> seq<OutputFile>): seq<OutputFile> {
    if order == [] then []
    else Parts(order[..|order| - 1], part) + part(order[|order| - 1])
  }

  ghost function ListedPart(names: Naming, outputs: seq<JobOutput>, presets: Presets, destination: string):
      (part: Container -> seq<OutputFile>)
    requires AllResolved(outputs, presets)
    ensures forall c :: part(c) == ListedFiles(names, Of(outputs, presets, c), c, destination)
  {
    c => ListedFiles(names, Of(outputs, presets, c), c, destination)
  }

  ghost function ListedByContainer(names: Naming, order: seq<Container>, outputs: seq<JobOutput>, presets: Presets,
          destination: string): seq<OutputFile>
    requires AllResolved(outputs, presets)
  {
    Parts(order, ListedPart(names, outputs, presets, destination))
  }

  lemma {:induction false} OneGroupLists(g: Group, names: Naming, os: seq<JobOutput>, c: Container, destination: string)
    requires Supported(c) && Describes(g, names, os, c, destination)
    ensures (if g.kind.File? then FilesOfGroup(g.outputs, g.destination) else [])
         == ListedFiles(names, os, c, destination)
  {
    if g.kind.File? {
      GroupIsListed(names, g.outputs, os, c, destination);
    }
  }

  /** When the provider echoes the groups of a job, the files listed are those of the outputs in an
      mp4, mov or webm container, group by group and within a group in job order. */
  lemma {:induction false} EchoedJobListsItsFiles(names: Naming, groups: seq<Group>, order: seq<Container>,
          outputs: seq<JobOutput>, presets: Presets, destination: string)
    requires AllResolved(outputs, presets) && Grouped(names, groups, order, outputs, presets, destination)
    ensures FilesOf(groups) == ListedByContainer(names, order, outputs, presets, destination)
  {
    if groups == [] {
    } else {
      var n := |groups| - 1;
      var c := order[n];
      EchoedJobListsItsFiles(names, groups[..n], order[..n], outputs, presets, destination);
      OneGroupLists(groups[n], names, Of(outputs, presets, c), c, destination);
    }
  }

  /** What the outputs in file containers are listed as, in job order. */
  function ListedOutputs(names: Naming, outputs: seq<JobOutput>, presets: Presets, destination: string):
      seq<OutputFile>
    requires AllResolved(outputs, presets)
  {
    if outputs == [] then []
    else
      var n := |outputs| - 1;
      ListedOutputs(names, outputs[..n], presets, destination) + ListedOutput(names, outputs[n], presets, destination)
  }

  function ListedOutput(names: Naming, o: JobOutput, presets: Presets, destination: string): seq<OutputFile>
    requires Resolved(o, presets)
  {
    var c := ContainerOf(o, presets);
    if !Listable(c) then [] else [ListedFile(names, o.fileName, c, destination)]
  }

  ghost predicate NoRepeats(order: seq<Container>) {
    forall i, j :: 0 <= i < j < |order| ==> order[i] != order[j]
  }

  lemma {:induction false} OneMoreOfContainer(outputs: seq<JobOutput>, o: JobOutput, presets: Presets, c: Container)
    requires AllResolved(outputs, presets) && Resolved(o, presets)
    ensures AllResolved(outputs + [o], presets)
    ensures Of(outputs + [o], presets, c) ==
      if ContainerOf(o, presets) == c then Of(outputs, presets, c) + [o] else Of(outputs, presets, c)
  {
    assert (outputs + [o])[..|outputs|] == outputs;
    assert Of(outputs, presets, c) + [] == Of(outputs, presets, c);
  }

  lemma {:induction false} OneMoreFile(names: Naming, os: seq<JobOutput>, o: JobOutput, c: Container,
                                       destination: string)
    ensures ListedFiles(names, os + [o], c, destination) == ListedFiles(names, os, c, destination)
      + if !Listable(c) then [] else [ListedFile(names, o.fileName, c, destination)]
  {
    assert (os + [o])[..|os|] == os;
  }

  lemma {:induction false} OneMoreOf(names: Naming, outputs: seq<JobOutput>, o: JobOutput, presets: Presets,
                                     destination: string, c: Container)
    requires AllResolved(outputs, presets) && Resolved(o, presets)
    ensures AllResolved(outputs + [o], presets)
    ensures ListedFiles(names, Of(outputs + [o], presets, c), c, destination)
         == ListedFiles(names, Of(outputs, presets, c), c, destination)
            + if ContainerOf(o, presets) == c then ListedOutput(names, o, presets, destination) else []
  {
    OneMoreOfContainer(outputs, o, presets, c);
    if ContainerOf(o, presets) == c {
      OneMoreFile(names, Of(outputs, presets, c), o, c, destination);
    } else {
      var listed := ListedFiles(names, Of(outputs, presets, c), c, destination);
      assert listed + [] == listed;
    }
  }

  lemma {:induction false} LastPart(order: seq<Container>, part: Container -> seq<OutputFile>)
    requires order != []
    ensures multiset(Parts(order, part))
         == multiset(Parts(order[..|order| - 1], part)) + multiset(part(order[|order| - 1]))
  {
  }

  /** A file added to the part of one container is added once to the parts of distinct containers. */
  lemma {:induction false} OneMoreInParts(order: seq<Container>, part: Container -> seq<OutputFile>,
                                          part': Container -> seq<OutputFile>, c: Container, extra: seq<OutputFile>)
    requires NoRepeats(order)
    requires forall d :: part'(d) == part(d) + if d == c then extra else []
    ensures multiset(Parts(order, part'))
         == multiset(Parts(order, part)) + if c in order then multiset(extra) else multiset{}
  {
    if order == [] {
    } else {
      var n := |order| - 1;
      OneMoreInParts(order[..n], part, part', c, extra);
      LastPart(order, part);
      LastPart(order, part');
      assert c in order <==> c in order[..n] || c == order[n];
      var own := if order[n] == c then extra else [];
      assert multiset(part'(order[n])) == multiset(part(order[n])) + multiset(own);
    }
  }

  lemma {:induction false} OneMoreListing(names: Naming, order: seq<Container>, outputs: seq<JobOutput>,
                                          o: JobOutput, presets: Presets, destination: string)
    requires NoRepeats(order) && AllResolved(outputs, presets) && Resolved(o, presets)
    requires ContainerOf(o, presets) in order
    ensures AllResolved(outputs + [o], presets)
    ensures multiset(ListedByContainer(names, order, outputs + [o], presets, destination))
         == multiset(ListedByContainer(names, order, outputs, presets, destination))
            + multiset(ListedOutput(names, o, presets, destination))
  {
    OneMoreOf(names, outputs, o, presets, destination, Mp4);
    var part := ListedPart(names, outputs, presets, destination);
    var part' := ListedPart(names, outputs + [o], presets, destination);
    var extra := ListedOutput(names, o, presets, destination);
    forall d ensures part'(d) == part(d) + if d == ContainerOf(o, presets) then extra else [] {
      OneMoreOf(names, outputs, o, presets, destination, d);
    }
    OneMoreInParts(order, part, part', ContainerOf(o, presets), extra);
  }

  lemma {:induction false} NothingListed(names: Naming, order: seq<Container>, presets: Presets, destination: string)
    ensures ListedByContainer(names, order, [], presets, destination) == []
  {
    if order == [] {
    } else {
      NothingListed(names, order[..|order| - 1], presets, destination);
      assert Of([], presets, order[|order| - 1]) == [];
    }
  }

  ghost predicate AllListed(order: seq<Container>, outputs: seq<JobOutput>, presets: Presets)
    requires AllResolved(outputs, presets)
  {
    NoRepeats(order) && Containers(outputs, presets) <= set c | c in order
  }

  lemma {:induction false} GroupsListTheOutputs(names: Naming, order: seq<Container>, outputs: seq<JobOutput>,
                                                presets: Presets, destination: string)
    requires AllResolved(outputs, presets) && AllListed(order, outputs, presets)
    ensures multiset(ListedByContainer(names, order, outputs, presets, destination))
         == multiset(ListedOutputs(names, outputs, presets, destination))
  {
    if outputs == [] {
      NothingListed(names, order, presets, destination);
    } else {
      var n := |outputs| - 1;
      var earlier, o := outputs[..n], outputs[n];
      assert outputs == earlier + [o];
      OneMoreContainer(earlier, presets, o);
      GroupsListTheOutputs(names, order, earlier, presets, destination);
      OneMoreListing(names, order, earlier, o, presets, destination);
      OneMoreListed(names, earlier, o, presets, destination);
    }
  }

  lemma {:induction false} OneMoreListed(names: Naming, outputs: seq<JobOutput>, o: JobOutput, presets: Presets,
                                         destination: string)
    requires AllResolved(outputs, presets) && Resolved(o, presets)
    ensures AllResolved(outputs + [o], presets)
    ensures multiset(ListedOutputs(names, outputs + [o], presets, destination))
         == multiset(ListedOutputs(names, outputs, presets, destination))
            + multiset(ListedOutput(names, o, presets, destination))
  {
    assert (outputs + [o])[..|outputs|] == outputs;
  }

  /** The files of an echoed job are the files of its mp4, mov and webm outputs, each as often as outputs
      are listed as it, and no others. */
  lemma {:induction false} ListsEveryFileOutputOnce(names: Naming, groups: seq<Group>, order: seq<Container>,
          outputs: seq<JobOutput>, presets: Presets, destination: string)
    requires AllResolved(outputs, presets) && Ordering(order, Containers(outputs, presets))
    requires Grouped(names, groups, order, outputs, presets, destination)
    ensures multiset(FilesOf(groups)) == multiset(ListedOutputs(names, outputs, presets, destination))
  {
    EchoedJobListsItsFiles(names, groups, order, outputs, presets, destination);
    GroupsListTheOutputs(names, order, outputs, presets, destination);
  }

  lemma PrefixCancels(d: string, a: string, b: string)
    ensures d + a == d + b <==> a == b
  {
    assert (d + a)[|d|..] == a && (d + b)[|d|..] == b;
  }

  lemma FileExtensionsAreExtensions(c: Container)
    requires Listable(c)
    ensures Extension(FileExtension(c).value)
  {
  }

  lemma ListedPath(names: Naming, fileName: string, c: Container, destination: string)
    requires Listable(c)
    ensures FileExtension(c).Some?
    ensures ListedFile(names, fileName, c, destination).path
         == destination + "m" + names(fileName).0 + FileExtension(c).value
  {
  }

  /** An output is listed at the destination, an "m" and its base name exactly when its name carries
      its container's extension. */
  lemma ListedAtBaseNameExactly(fileName: string, c: Container, destination: string)
    requires Listable(c)
    ensures ListedFile(Names, fileName, c, destination).path == destination + "m" + Base(fileName) <==>
      CarriesExtension(fileName, FileExtension(c).value)
  {
    FileExtensionsAreExtensions(c);
    ListedPath(Names, fileName, c, destination);
    ListedAt(Names(fileName).0, Base(fileName), FileExtension(c).value, destination + "m");
    NameRestoredExactly(fileName, FileExtension(c).value);
  }

  /** An mp4 output that is named as a mov file is not listed at its name. */
  lemma MisnamedOutputIsListedElsewhere(destination: string)
    ensures ListedFile(Names, "clip.mov", Mp4, destination).path != destination + "m" + Base("clip.mov")
  {
    assert "clip.mov"[4..] != ".mp4" by {
      assert "clip.mov"[4..][3] == 'v';
    }
    ListedAtBaseNameExactly("clip.mov", Mp4, destination);
  }

  lemma ListedAt(name: string, base: string, ext: string, d: string)
    ensures d + name + ext == d + base <==> name + ext == base
  {
    assert d + name + ext == d + (name + ext);
    PrefixCancels(d, name + ext, base);
  }

  /** Output `i` is listed as `f`. */
  ghost predicate ListsAs(names: Naming, outputs: seq<JobOutput>, presets: Presets, destination: string, i: nat,
          f: OutputFile)
    requires AllResolved(outputs, presets)
  {
    i < |outputs| && Listable(ContainerOf(outputs[i], presets))
    && f == ListedFile(names, outputs[i].fileName, ContainerOf(outputs[i], presets), destination)
  }

  lemma {:induction false} ListedOutputsMember(names: Naming, outputs: seq<JobOutput>, presets: Presets,
                                               destination: string, f: OutputFile)
    requires AllResolved(outputs, presets)
    ensures f in ListedOutputs(names, outputs, presets, destination) <==>
      exists i: nat :: ListsAs(names, outputs, presets, destination, i, f)
  {
    if outputs == [] {
    } else {
      var n := |outputs| - 1;
      ListedOutputsMember(names, outputs[..n], presets, destination, f);
      forall i: nat | i < n
        ensures ListsAs(names, outputs[..n], presets, destination, i, f)
           <==> ListsAs(names, outputs, presets, destination, i, f)
      {
        assert outputs[..n][i] == outputs[i];
      }
      if f in ListedOutput(names, outputs[n], presets, destination) {
        assert ListsAs(names, outputs, presets, destination, n, f);
      }
    }
  }

  /** The files of an echoed job are exactly those that its outputs in file containers are listed as. */
  lemma {:induction false} FilesAreExactlyTheOutputs(names: Naming, groups: seq<Group>, order: seq<Container>,
          outputs: seq<JobOutput>, presets: Presets, destination: string, f: OutputFile)
    requires AllResolved(outputs, presets) && Ordering(order, Containers(outputs, presets))
    requires Grouped(names, groups, order, outputs, presets, destination)
    ensures f in FilesOf(groups) <==> exists i: nat :: ListsAs(names, outputs, presets, destination, i, f)
  {
    ListsEveryFileOutputOnce(names, groups, order, outputs, presets, destination);
    assert f in FilesOf(groups) <==> f in multiset(FilesOf(groups));
    assert f in ListedOutputs(names, outputs, presets, destination) <==>
      f in multiset(ListedOutputs(names, outputs, presets, destination));
    ListedOutputsMember(names, outputs, presets, destination, f);
  }

  /** Output `i` is in a file container, and `path` is its base name at the destination. */
  ghost predicate HasBaseName(outputs: seq<JobOutput>, presets: Presets, destination: string, i: nat, path: string)
    requires AllResolved(outputs, presets) && i < |outputs|
  {
    Listable(ContainerOf(outputs[i], presets)) && path == destination + "m" + Base(outputs[i].fileName)
  }

  /** When every output in a file container carries its extension, the files listed are exactly those
      outputs at the destination, an "m" and their base names. */
  lemma {:induction false} FilesAreAtBaseNames(groups: seq<Group>, order: seq<Container>, outputs: seq<JobOutput>,
          presets: Presets, destination: string, path: string)
    requires AllResolved(outputs, presets) && Ordering(order, Containers(outputs, presets))
    requires Grouped(Names, groups, order, outputs, presets, destination)
    requires forall i :: 0 <= i < |outputs| && Listable(ContainerOf(outputs[i], presets)) ==>
      CarriesExtension(outputs[i].fileName, FileExtension(ContainerOf(outputs[i], presets)).value)
    ensures (exists f :: f in FilesOf(groups) && f.path == path) <==>
      exists i :: 0 <= i < |outputs| && HasBaseName(outputs, presets, destination, i, path)
  {
    if f :| f in FilesOf(groups) && f.path == path {
      FilesAreExactlyTheOutputs(Names, groups, order, outputs, presets, destination, f);
      var i: nat :| ListsAs(Names, outputs, presets, destination, i, f);
      ListedAtBaseNameExactly(outputs[i].fileName, ContainerOf(outputs[i], presets), destination);
      assert HasBaseName(outputs, presets, destination, i, path);
    }
    if i :| 0 <= i < |outputs| && HasBaseName(outputs, presets, destination, i, path) {
      var c := ContainerOf(outputs[i], presets);
      var f := ListedFile(Names, outputs[i].fileName, c, destination);
      ListedAtBaseNameExactly(outputs[i].fileName, c, destination);
      assert ListsAs(Names, outputs, presets, destination, i, f);
      FilesAreExactlyTheOutputs(Names, groups, order, outputs, presets, destination, f);
    }
  }
}
