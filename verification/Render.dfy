/** Drawing media from prompts into a directory: a manifest written after every
    draw, so that a render cut short at any step is resumed by running it again. */
module Render {
  import opened Options

  // ----- requests ------------------------------------------------------------------

  datatype Value = Number(number: real) | Text(text: string) | Artifact(id: string)

  /** A request as it is encoded; its key is its digest, and two requests share a
      key exactly when they are the same. */
  type Request = map<string, Value>

  datatype Prompt = Prompt(id: string, text: string, source: Option<string>)

  /** The template with the settings over its fields. */
  function Settled(template: Request, settings: map<string, real>): Request {
    template + map name | name in settings :: Number(settings[name])
  }

  function Asked(template: Request, settings: map<string, real>, item: Prompt): Request {
    var request := Settled(template, settings)["prompt" := Text(item.text)];
    if item.source.Some? then request["source_artifact" := Artifact(item.source.value)] else request
  }

  function RequestOf(template: Request, settings: map<string, real>, item: Prompt, index: nat): Request {
    var request := Asked(template, settings, item);
    if "seed" in request && request["seed"].Number?
    then request["seed" := Number(request["seed"].number + index as real)]
    else request
  }

  /** The settings but those named, over the template. */
  ghost predicate SettledBut(request: Request, template: Request, settings: map<string, real>, names: set<string>) {
    && (forall n :: n in request <==> n in template || (n in settings && n !in names))
    && (forall n :: n in request ==>
          request[n] == if n in settings && n !in names then Number(settings[n]) else template[n])
  }

  lemma SettledMore(request: Request, template: Request, settings: map<string, real>, names: set<string>, name: string)
    requires SettledBut(request, template, settings, names) && name in names && name in settings
    ensures SettledBut(request[name := Number(settings[name])], template, settings, names - {name})
  {
  }

  /** A field of the template with the settings over it: the setting's number, or else the
      template's value, or else nothing. */
  function FieldOf(template: Request, settings: map<string, real>, name: string): Option<Value> {
    if name in settings then Some(Number(settings[name]))
    else if name in template then Some(template[name])
    else None
  }

  /** The field of that name, if the request has one. */
  function Field(request: Request, name: string): Option<Value> {
    if name in request then Some(request[name]) else None
  }

  /** A request, name by name: the prompt is the item's text; the source is the item's, if it
      has one; the seed, if it is a number, goes on by the index; and all else is the
      setting's, or else the template's. */
  ghost predicate IsAsked(request: Request, template: Request, settings: map<string, real>, item: Prompt, index: nat) {
    && Field(request, "prompt") == Some(Text(item.text))
    && Field(request, "source_artifact")
    == (if item.source.Some? then Some(Artifact(item.source.value)) else FieldOf(template, settings, "source_artifact"))
    && Field(request, "seed")
    == (match FieldOf(template, settings, "seed")
        case Some(Number(number)) => Some(Number(number + index as real))
        case other => other)
    && forall name :: name != "prompt" && name != "source_artifact" && name != "seed" ==>
                        Field(request, name) == FieldOf(template, settings, name)
  }

  lemma RequestIsAsked(template: Request, settings: map<string, real>, item: Prompt, index: nat)
    ensures IsAsked(RequestOf(template, settings, item, index), template, settings, item, index)
  {
    NamesDiffer();
    forall name ensures Field(Settled(template, settings), name) == FieldOf(template, settings, name) {
    }
  }

  /** The clone of the template, overwritten setting by setting in whatever order the map gives them. */
  method Overwritten(template: Request, settings: map<string, real>) returns (request: Request)
    ensures request == Settled(template, settings)
    ensures forall name :: Field(request, name) == FieldOf(template, settings, name)
  {
    request := template;
    var names := settings.Keys;
    while names != {}
      invariant names <= settings.Keys && SettledBut(request, template, settings, names)
      decreases names
    {
      var name :| name in names;
      SettledMore(request, template, settings, names, name);
      names := names - {name};
      request := request[name := Number(settings[name])];
    }
  }

  /** renderRequest. */
  method RenderRequest(template: Request, settings: map<string, real>, item: Prompt, index: nat)
      returns (request: Request)
    ensures request == RequestOf(template, settings, item, index)
    ensures IsAsked(request, template, settings, item, index)
  {
    RequestIsAsked(template, settings, item, index);
    request := Overwritten(template, settings);
    request := request["prompt" := Text(item.text)];
    if item.source.Some? {
      request := request["source_artifact" := Artifact(item.source.value)];
    }
    if "seed" in request && request["seed"].Number? {
      request := request["seed" := Number(request["seed"].number + index as real)];
    }
  }

  /** The draws a template with these settings makes advance a seed. */
  predicate Seeded(template: Request, settings: map<string, real>) {
    "seed" in Settled(template, settings) && Settled(template, settings)["seed"].Number?
  }

  function SourceOf(template: Request, settings: map<string, real>, item: Prompt): Option<Value> {
    if item.source.Some? then Some(Artifact(item.source.value))
    else if "source_artifact" in Settled(template, settings)
    then Some(Settled(template, settings)["source_artifact"])
    else None
  }

  /** Two prompts share one draw exactly when they ask for the same text of the same
      source and no seed tells their places apart. */
  lemma SameDrawExactly(template: Request, settings: map<string, real>, a: Prompt, i: nat, b: Prompt, j: nat)
    ensures RequestOf(template, settings, a, i) == RequestOf(template, settings, b, j) <==>
            && a.text == b.text
            && SourceOf(template, settings, a) == SourceOf(template, settings, b)
            && (Seeded(template, settings) ==> i == j)
  {
    if RequestOf(template, settings, a, i) == RequestOf(template, settings, b, j) {
      FieldsOf(template, settings, a, i);
      FieldsOf(template, settings, b, j);
    }
    if a.text == b.text && SourceOf(template, settings, a) == SourceOf(template, settings, b)
       && (Seeded(template, settings) ==> i == j) {
      AskedAlike(template, settings, a, b);
      SeededAsked(template, settings, a);
    }
  }

  lemma NamesDiffer()
    ensures "prompt" != "seed" && "prompt" != "source_artifact" && "seed" != "source_artifact"
  {
    assert "prompt"[0] != "seed"[0] && |"seed"| != |"source_artifact"| && |"prompt"| != |"source_artifact"|;
  }

  lemma AskedAlike(template: Request, settings: map<string, real>, a: Prompt, b: Prompt)
    requires a.text == b.text && SourceOf(template, settings, a) == SourceOf(template, settings, b)
    ensures Asked(template, settings, a) == Asked(template, settings, b)
  {
    NamesDiffer();
  }

  lemma SeededAsked(template: Request, settings: map<string, real>, item: Prompt)
    ensures var r := Asked(template, settings, item);
            && ("seed" in r && r["seed"].Number? <==> Seeded(template, settings))
            && (Seeded(template, settings) ==> r["seed"] == Settled(template, settings)["seed"])
  {
    NamesDiffer();
  }

  lemma FieldsOf(template: Request, settings: map<string, real>, item: Prompt, index: nat)
    ensures var r := RequestOf(template, settings, item, index);
            && "prompt" in r && r["prompt"] == Text(item.text)
            && ("source_artifact" in r <==> SourceOf(template, settings, item).Some?)
            && ("source_artifact" in r ==> r["source_artifact"] == SourceOf(template, settings, item).value)
            && (Seeded(template, settings) ==>
                  "seed" in r && r["seed"] == Number(Settled(template, settings)["seed"].number + index as real))
  {
    NamesDiffer();
    SeededAsked(template, settings, item);
  }

  // ----- the directory -----------------------------------------------------------------

  type Bytes = seq<int>

  /** A file is named by the digest of its bytes, and the format's extension. */
  datatype FileName = FileName(digestOf: Bytes, extension: string)

  /** What a manifest keeps of a draw. */
  datatype Drawn = Drawn(file: FileName, request: Request, output: Bytes)

  /** What binds a directory: the model, recipe, task and settings that drew it. */
  datatype Binding = Binding(model: string, recipe: string, task: string, settings: map<string, real>)

  datatype Manifest = Manifest(binding: Binding, commit: string, draws: map<Request, Drawn>)

  datatype Disk = Disk(manifest: Option<Manifest>, files: map<FileName, Bytes>)

  function Draws(disk: Disk): map<Request, Drawn> {
    if disk.manifest.Some? then disk.manifest.value.draws else map[]
  }

  /** alreadyDrawn: the manifest a render goes on from, none when the directory is
      bound to another model, recipe, task or settings. */
  function AlreadyDrawn(disk: Disk, want: Manifest): Option<Manifest> {
    if disk.manifest.None? then Some(want.(draws := map[]))
    else if disk.manifest.value.binding != want.binding then None
    else disk.manifest
  }

  /** verifyRendered, of what is on disk: the manifest binds the key to a file that
      holds the bytes it was drawn as. */
  predicate Verified(disk: Disk, binding: Binding, key: Request) {
    && disk.manifest.Some?
    && disk.manifest.value.binding.model == binding.model && disk.manifest.value.binding.recipe == binding.recipe
    && key in disk.manifest.value.draws
    && Bound(disk.files, key, disk.manifest.value.draws[key])
  }

  predicate Bound(files: map<FileName, Bytes>, key: Request, drawn: Drawn) {
    && drawn.request == key
    && drawn.file in files && files[drawn.file] == drawn.output
  }

  // ----- runs, cut short anywhere ---------------------------------------------------------

  /** What one render is asked for. */
  datatype Job = Job(want: Manifest, template: Request, prompts: seq<Prompt>)
  {
    function Key(i: nat): Request
      requires i < |prompts|
    {
      RequestOf(template, want.binding.settings, prompts[i], i)
    }
  }

  datatype Run =
    | Idle
    /** The i-th prompt is looked up next, with the manifest and names held. */
    | Looking(job: Job, held: Manifest, names: map<string, Request>, i: nat)
    /** It was executed, and its bytes are not written yet. */
    | Executed(job: Job, held: Manifest, names: map<string, Request>, i: nat, output: Bytes, extension: string)
    /** Its file is written, and the manifest is not. */
    | Written(job: Job, held: Manifest, names: map<string, Request>, i: nat, output: Bytes, extension: string)

  datatype Event = Ran(key: Request) | Interrupted | Refused | Returned(job: Job, names: map<string, Request>)

  datatype World = World(disk: Disk, run: Run, log: seq<Event>)

  datatype Action =
    | Start(job: Job)                              // the directory's manifest is read
    | Look                                         // a drawn prompt is verified and named, or refused
    | Execute(output: Bytes, extension: string)    // the capability draws
    | Fail                                         // the capability draws nothing
    | WriteFile
    | Save
    | Finish                                       // the manifest is written once more, and the names returned
    | Cut                                          // the render ends where it stands

  /** The next prompt is to be drawn, by the build that drew the directory. */
  predicate Undrawn(w: World) {
    && w.run.Looking? && w.run.i < |w.run.job.prompts|
    && w.run.job.Key(w.run.i) !in w.run.held.draws && w.run.held.commit == w.run.job.want.commit
  }

  predicate Enabled(w: World, a: Action) {
    match a
    case Start(_) => w.run.Idle?
    case Look => w.run.Looking? && w.run.i < |w.run.job.prompts|
                 && (w.run.job.Key(w.run.i) in w.run.held.draws || w.run.held.commit != w.run.job.want.commit)
    case Execute(_, _) => Undrawn(w)
    case Fail => Undrawn(w)
    case WriteFile => w.run.Executed? && w.run.i < |w.run.job.prompts|
    case Save => w.run.Written? && w.run.i < |w.run.job.prompts|
    case Finish => w.run.Looking? && w.run.i == |w.run.job.prompts|
    case Cut => !w.run.Idle?
  }

  function Next(w: World, a: Action): World
    requires Enabled(w, a)
  {
    match a
    case Start(job) =>
      var held := AlreadyDrawn(w.disk, job.want);
      if held.None? then w.(log := w.log + [Refused])
      else w.(run := Looking(job, held.value, map[], 0))
    case Look =>
      var key := w.run.job.Key(w.run.i);
      if key in w.run.held.draws && Verified(w.disk, w.run.held.binding, key)
      then w.(run := Looking(w.run.job, w.run.held, w.run.names[w.run.job.prompts[w.run.i].id := key], w.run.i + 1))
      else w.(run := Idle, log := w.log + [Refused])
    case Execute(output, extension) =>
      w.(run := Executed(w.run.job, w.run.held, w.run.names, w.run.i, output, extension),
         log := w.log + [Ran(w.run.job.Key(w.run.i))])
    case Fail =>
      w.(run := Idle, log := w.log + [Ran(w.run.job.Key(w.run.i))] + [Interrupted])
    case WriteFile =>
      w.(disk := w.disk.(files := w.disk.files[FileName(w.run.output, w.run.extension) := w.run.output]),
         run := Written(w.run.job, w.run.held, w.run.names, w.run.i, w.run.output, w.run.extension))
    case Save =>
      var key := w.run.job.Key(w.run.i);
      var drawn := Drawn(FileName(w.run.output, w.run.extension), key, w.run.output);
      var held := w.run.held.(draws := w.run.held.draws[key := drawn]);
      w.(disk := w.disk.(manifest := Some(held)),
         run := Looking(w.run.job, held, w.run.names[w.run.job.prompts[w.run.i].id := key], w.run.i + 1))
    case Finish =>
      w.(disk := w.disk.(manifest := Some(w.run.held)), run := Idle,
         log := w.log + [Returned(w.run.job, w.run.names)])
    case Cut =>
      w.(run := Idle, log := w.log + [Interrupted])
  }

  // ----- what holds between any two steps ----------------------------------------------------

  /** Every entry's file was written before it, and holds the bytes it was drawn as. */
  ghost predicate DiskSound(disk: Disk) {
    && (forall name :: name in disk.files ==> disk.files[name] == name.digestOf)
    && (forall key :: key in Draws(disk) ==> Bound(disk.files, key, Draws(disk)[key]))
  }

  /** What the run holds is what is on disk. */
  ghost predicate HeldIsKept(disk: Disk, held: Manifest) {
    && held.draws == Draws(disk)
    && (disk.manifest.Some? ==> disk.manifest.value == held)
  }

  /** The names of the prompts passed so far: each its last prompt's key, drawn. */
  ghost predicate NamesSound(job: Job, names: map<string, Request>, i: nat, draws: map<Request, Drawn>) {
    && i <= |job.prompts|
    && (forall j :: 0 <= j < i ==> job.prompts[j].id in names && job.Key(j) in draws)
    && (forall id :: id in names ==> exists j :: LastNamed(job, id, j, i) && names[id] == job.Key(j))
  }

  /** The j-th prompt is the last before i of that identity. */
  ghost predicate LastNamed(job: Job, id: string, j: nat, i: nat)
    requires i <= |job.prompts|
  {
    j < i && job.prompts[j].id == id && forall k :: j < k < i ==> job.prompts[k].id != id
  }

  ghost predicate RunSound(w: World) {
    match w.run
    case Idle => true
    case Looking(job, held, names, i) =>
      HeldIsKept(w.disk, held) && held.binding == job.want.binding && NamesSound(job, names, i, held.draws)
    case Executed(job, held, names, i, _, _) =>
      HeldIsKept(w.disk, held) && held.binding == job.want.binding && NamesSound(job, names, i, held.draws)
      && i < |job.prompts| && job.Key(i) !in held.draws
    case Written(job, held, names, i, output, extension) =>
      HeldIsKept(w.disk, held) && held.binding == job.want.binding && NamesSound(job, names, i, held.draws)
      && i < |job.prompts| && job.Key(i) !in held.draws
      && FileName(output, extension) in w.disk.files
  }

  ghost predicate Inv(w: World) {
    DiskSound(w.disk) && RunSound(w)
  }

  const EMPTY := World(Disk(None, map[]), Idle, [])

  lemma NamesGrow(job: Job, names: map<string, Request>, i: nat, draws: map<Request, Drawn>, more: map<Request, Drawn>)
    requires NamesSound(job, names, i, draws) && i < |job.prompts|
    requires job.Key(i) in more && forall key :: key in draws ==> key in more
    ensures NamesSound(job, names[job.prompts[i].id := job.Key(i)], i + 1, more)
  {
    var grown := names[job.prompts[i].id := job.Key(i)];
    forall id | id in grown ensures exists j :: LastNamed(job, id, j, i + 1) && grown[id] == job.Key(j) {
      NameGrows(job, names, i, id);
    }
  }

  lemma NameGrows(job: Job, names: map<string, Request>, i: nat, id: string)
    requires i < |job.prompts|
    requires id in names ==> exists j :: LastNamed(job, id, j, i) && names[id] == job.Key(j)
    requires id in names || id == job.prompts[i].id
    ensures exists j :: LastNamed(job, id, j, i + 1) && names[job.prompts[i].id := job.Key(i)][id] == job.Key(j)
  {
    var grown := names[job.prompts[i].id := job.Key(i)];
    if id == job.prompts[i].id {
      assert LastNamed(job, id, i, i + 1) && grown[id] == job.Key(i);
    } else {
      var j :| LastNamed(job, id, j, i) && names[id] == job.Key(j);
      assert LastNamed(job, id, j, i + 1) && grown[id] == job.Key(j);
    }
  }

  lemma WriteKeepsInv(w: World)
    requires Inv(w) && Enabled(w, WriteFile)
    ensures Inv(Next(w, WriteFile))
  {
    var name, after := FileName(w.run.output, w.run.extension), Next(w, WriteFile);
    forall key | key in Draws(after.disk) ensures Bound(after.disk.files, key, Draws(after.disk)[key]) {
      assert Bound(w.disk.files, key, Draws(w.disk)[key]);
    }
  }

  lemma SaveKeepsDisk(w: World)
    requires Inv(w) && Enabled(w, Save)
    ensures DiskSound(Next(w, Save).disk)
  {
    var drawn := Drawn(FileName(w.run.output, w.run.extension), w.run.job.Key(w.run.i), w.run.output);
    assert Bound(w.disk.files, drawn.request, drawn);
  }

  lemma SaveKeepsNames(w: World)
    requires Inv(w) && Enabled(w, Save)
    ensures var run := Next(w, Save).run; NamesSound(run.job, run.names, run.i, run.held.draws)
  {
    var run := Next(w, Save).run;
    NamesGrow(w.run.job, w.run.names, w.run.i, w.run.held.draws, run.held.draws);
  }

  lemma SaveKeepsInv(w: World)
    requires Inv(w) && Enabled(w, Save)
    ensures Inv(Next(w, Save))
  {
    SaveKeepsDisk(w);
    SaveKeepsNames(w);
  }

  lemma LookKeepsInv(w: World)
    requires Inv(w) && Enabled(w, Look)
    ensures Inv(Next(w, Look))
  {
    if w.run.job.Key(w.run.i) in w.run.held.draws {
      NamesGrow(w.run.job, w.run.names, w.run.i, w.run.held.draws, w.run.held.draws);
    }
  }

  /** Every step, a cut anywhere among them, keeps the invariant. */
  lemma StepKeepsInv(w: World, a: Action)
    requires Inv(w) && Enabled(w, a)
    ensures Inv(Next(w, a))
  {
    match a
    case Start(_) =>
    case Look => LookKeepsInv(w);
    case Execute(_, _) =>
    case Fail =>
    case WriteFile => WriteKeepsInv(w);
    case Save => SaveKeepsInv(w);
    case Finish =>
    case Cut =>
  }

  /** The manifest never loses or changes an entry. */
  lemma StepKeepsEntries(w: World, a: Action)
    requires Inv(w) && Enabled(w, a)
    ensures forall key :: key in Draws(w.disk) ==>
              key in Draws(Next(w, a).disk) && Draws(Next(w, a).disk)[key] == Draws(w.disk)[key]
    ensures forall name :: name in w.disk.files ==> name in Next(w, a).disk.files
  {
  }

  /** A prompt whose entry is held always passes its verification: a resumed render is never refused. */
  lemma HeldIsVerified(w: World, key: Request)
    requires Inv(w) && w.run.Looking? && key in w.run.held.draws
    ensures Verified(w.disk, w.run.held.binding, key)
  {
    assert key in Draws(w.disk);
  }

  // ----- any sequence of renders --------------------------------------------------------------

  ghost predicate Runs(w: World, actions: seq<Action>)
    decreases |actions|
  {
    actions == [] || (Enabled(w, actions[0]) && Runs(Next(w, actions[0]), actions[1..]))
  }

  ghost function After(w: World, actions: seq<Action>): World
    requires Runs(w, actions)
    decreases |actions|
  {
    if actions == [] then w else After(Next(w, actions[0]), actions[1..])
  }

  /** Over any sequence of renders of any jobs into one directory, cut short
      anywhere: no entry is lost or changed, and each entry's file is there with the
      bytes it was drawn as. */
  lemma {:induction false} EntriesAreKept(w: World, actions: seq<Action>)
    requires Inv(w) && Runs(w, actions)
    ensures Inv(After(w, actions))
    ensures forall key :: key in Draws(w.disk) ==>
              key in Draws(After(w, actions).disk) && Draws(After(w, actions).disk)[key] == Draws(w.disk)[key]
    ensures forall key :: key in Draws(After(w, actions).disk) ==>
              Bound(After(w, actions).disk.files, key, Draws(After(w, actions).disk)[key])
    decreases |actions|
  {
    if actions != [] {
      StepKeepsInv(w, actions[0]);
      StepKeepsEntries(w, actions[0]);
      EntriesAreKept(Next(w, actions[0]), actions[1..]);
    }
  }

  // ----- how much is repeated ---------------------------------------------------------------------

  ghost function Executions(log: seq<Event>): nat {
    if log == [] then 0 else Executions(log[..|log| - 1]) + if log[|log| - 1].Ran? then 1 else 0
  }

  ghost function Interruptions(log: seq<Event>): nat {
    if log == [] then 0 else Interruptions(log[..|log| - 1]) + if log[|log| - 1].Interrupted? then 1 else 0
  }

  lemma CountAppend(log: seq<Event>, e: Event)
    ensures Executions(log + [e]) == Executions(log) + if e.Ran? then 1 else 0
    ensures Interruptions(log + [e]) == Interruptions(log) + if e.Interrupted? then 1 else 0
  {
    assert (log + [e])[..|log|] == log;
  }

  /** One execution whose draw is not in the manifest yet. */
  function InFlight(run: Run): nat {
    if run.Executed? || run.Written? then 1 else 0
  }

  ghost predicate Counted(w: World) {
    Executions(w.log) <= |Draws(w.disk)| + Interruptions(w.log) + InFlight(w.run)
  }

  /** Only a save adds to the entries, and it adds one. */
  lemma EntriesAdded(w: World, a: Action)
    requires Inv(w) && Enabled(w, a)
    ensures a.Save? ==> |Draws(Next(w, a).disk)| == |Draws(w.disk)| + 1
    ensures !a.Save? ==> Draws(Next(w, a).disk) == Draws(w.disk)
  {
    if a.Save? {
      var key, before, after := w.run.job.Key(w.run.i), Draws(w.disk), Draws(Next(w, a).disk);
      assert after == before[key := after[key]];
    }
  }

  /** One event more, that pays for what it starts or leaves. */
  lemma LoggedKeepsCount(w: World, next: World, e: Event)
    requires Counted(w) && next.log == w.log + [e] && Draws(next.disk) == Draws(w.disk)
    requires InFlight(w.run) + (if e.Ran? then 1 else 0) <= InFlight(next.run) + if e.Interrupted? then 1 else 0
    ensures Counted(next)
  {
    CountAppend(w.log, e);
  }

  lemma FailKeepsCount(w: World)
    requires Counted(w) && Enabled(w, Fail)
    ensures Counted(Next(w, Fail))
  {
    var ran := Ran(w.run.job.Key(w.run.i));
    CountAppend(w.log, ran);
    CountAppend(w.log + [ran], Interrupted);
  }

  lemma StepKeepsCount(w: World, a: Action)
    requires Counted(w) && Enabled(w, a)
    requires a.Save? ==> |Draws(Next(w, a).disk)| == |Draws(w.disk)| + 1
    requires !a.Save? ==> Draws(Next(w, a).disk) == Draws(w.disk)
    ensures Counted(Next(w, a))
  {
    var after := Next(w, a);
    if a.Fail? {
      FailKeepsCount(w);
    } else if after.log != w.log {
      LoggedKeepsCount(w, after, LoggedBy(w, a));
    }
  }

  /** What a step that logs one event logs. */
  function LoggedBy(w: World, a: Action): Event
    requires Enabled(w, a) && !a.Fail?
  {
    if a.Execute? then Ran(w.run.job.Key(w.run.i))
    else if a.Finish? then Returned(w.run.job, w.run.names)
    else if a.Cut? then Interrupted
    else Refused
  }

  /** Each interruption costs one execution at most: beyond one for each entry of the
      manifest, no more were made than there were interruptions. */
  lemma {:induction false} InterruptionsRepeatOne(w: World, actions: seq<Action>)
    requires Inv(w) && Counted(w) && Runs(w, actions)
    ensures var after := After(w, actions);
            after.run.Idle? ==> Executions(after.log) <= |Draws(after.disk)| + Interruptions(after.log)
    decreases |actions|
  {
    if actions != [] {
      StepKeepsInv(w, actions[0]);
      EntriesAdded(w, actions[0]);
      StepKeepsCount(w, actions[0]);
      InterruptionsRepeatOne(Next(w, actions[0]), actions[1..]);
    }
  }

  // ----- one job, resumed until it completes ------------------------------------------------------

  ghost function Keys(job: Job): set<Request> {
    set i | 0 <= i < |job.prompts| :: job.Key(i)
  }

  ghost predicate OnlyJob(actions: seq<Action>, job: Job) {
    forall i :: 0 <= i < |actions| && actions[i].Start? ==> actions[i].job == job
  }

  lemma OnlyJobMore(actions: seq<Action>, a: Action, job: Job)
    ensures OnlyJob(actions + [a], job) <==> OnlyJob(actions, job) && (a.Start? ==> a.job == job)
  {
    var more := actions + [a];
    assert more[|actions|] == a && forall i :: 0 <= i < |actions| ==> more[i] == actions[i];
  }

  /** Every prompt is named, by the last of its identity, with the key of its draw. */
  ghost predicate Complete(job: Job, names: map<string, Request>) {
    && (forall i :: 0 <= i < |job.prompts| ==> job.prompts[i].id in names)
    && (forall id :: id in names ==> exists j :: LastNamed(job, id, j, |job.prompts|) && names[id] == job.Key(j))
  }

  ghost predicate RunOfJob(w: World, job: Job) {
    match w.run
    case Idle => true
    case Looking(j, held, _, _) => j == job && held.commit == job.want.commit
    case Executed(j, held, _, _, _, _) => j == job && held.commit == job.want.commit
    case Written(j, held, _, _, _, _) => j == job && held.commit == job.want.commit
  }

  ghost predicate EventOfJob(e: Event, job: Job) {
    !e.Refused? && (e.Returned? ==> e.job == job && Complete(job, e.names))
  }

  ghost predicate DiskOfJob(disk: Disk, job: Job) {
    && (disk.manifest.Some? ==> disk.manifest.value.binding == job.want.binding
                                && disk.manifest.value.commit == job.want.commit)
    && Draws(disk).Keys <= Keys(job)
  }

  ghost predicate LogOfJob(log: seq<Event>, job: Job) {
    forall i :: 0 <= i < |log| ==> EventOfJob(log[i], job)
  }

  ghost predicate JobInv(w: World, job: Job) {
    Inv(w) && RunOfJob(w, job) && DiskOfJob(w.disk, job) && LogOfJob(w.log, job)
  }

  lemma SaveKeepsJob(w: World, job: Job)
    requires JobInv(w, job) && Enabled(w, Save)
    ensures RunOfJob(Next(w, Save), job) && DiskOfJob(Next(w, Save).disk, job)
  {
    var key := job.Key(w.run.i);
    assert key in Keys(job);
    assert Draws(Next(w, Save).disk).Keys == Draws(w.disk).Keys + {key};
  }

  lemma LookKeepsJob(w: World, job: Job)
    requires JobInv(w, job) && Enabled(w, Look)
    ensures RunOfJob(Next(w, Look), job) && Next(w, Look).disk == w.disk && Next(w, Look).log == w.log
  {
    HeldIsVerified(w, job.Key(w.run.i));
  }

  lemma FinishKeepsJob(w: World, job: Job)
    requires JobInv(w, job) && Enabled(w, Finish)
    ensures DiskOfJob(Next(w, Finish).disk, job) && Draws(Next(w, Finish).disk).Keys == Keys(job)
    ensures EventOfJob(Returned(job, w.run.names), job)
  {
    AllNamed(job, w.run.names, w.run.held.draws);
    assert Draws(Next(w, Finish).disk) == w.run.held.draws;
  }

  lemma AllNamed(job: Job, names: map<string, Request>, draws: map<Request, Drawn>)
    requires NamesSound(job, names, |job.prompts|, draws)
    ensures Complete(job, names) && Keys(job) <= draws.Keys
  {
    forall key | key in Keys(job) ensures key in draws {
      var i :| 0 <= i < |job.prompts| && key == job.Key(i);
    }
  }

  lemma StepKeepsJob(w: World, a: Action, job: Job)
    requires JobInv(w, job) && Enabled(w, a) && (a.Start? ==> a.job == job)
    ensures JobInv(Next(w, a), job)
    ensures a.Finish? ==> Draws(Next(w, a).disk).Keys == Keys(job)
  {
    StepKeepsInv(w, a);
    if a.Look? {
      LookKeepsJob(w, job);
    } else if a.Save? {
      SaveKeepsJob(w, job);
    } else if a.Finish? {
      FinishKeepsJob(w, job);
    }
  }

  /** Over any sequence of renders of one job by one build, cut short anywhere, into
      a directory that began empty: none is refused; a render that completes returns
      the key of each prompt's draw; and the draws recorded are then those keys. */
  lemma {:induction false} ResumedRenderCompletes(w: World, actions: seq<Action>, job: Job)
    requires JobInv(w, job) && Runs(w, actions) && OnlyJob(actions, job)
    ensures JobInv(After(w, actions), job)
    ensures actions != [] && actions[|actions| - 1].Finish? ==> Draws(After(w, actions).disk).Keys == Keys(job)
    decreases |actions|
  {
    if actions != [] {
      StepKeepsJob(w, actions[0], job);
      var rest := actions[1..];
      forall i | 0 <= i < |rest| && rest[i].Start? ensures rest[i].job == job {
        assert rest[i] == actions[i + 1];
      }
      ResumedRenderCompletes(Next(w, actions[0]), rest, job);
    }
  }

  lemma EmptyIsSound(job: Job)
    ensures JobInv(EMPTY, job) && Counted(EMPTY)
  {
  }

  /** When the prompts' identities differ, the names returned are each prompt's own key. */
  lemma DistinctPromptsNamed(job: Job, names: map<string, Request>, i: nat)
    requires Complete(job, names) && i < |job.prompts|
    requires forall j, k :: 0 <= j < k < |job.prompts| ==> job.prompts[j].id != job.prompts[k].id
    ensures names[job.prompts[i].id] == RequestOf(job.template, job.want.binding.settings, job.prompts[i], i)
  {
    var j :| LastNamed(job, job.prompts[i].id, j, |job.prompts|) && names[job.prompts[i].id] == job.Key(j);
  }

  // ----- the command's own loop ---------------------------------------------------------------------

  lemma {:induction false} RunAppend(w: World, first: seq<Action>, a: Action)
    requires Runs(w, first) && Enabled(After(w, first), a)
    ensures Runs(w, first + [a]) && After(w, first + [a]) == Next(After(w, first), a)
    decreases |first|
  {
    if first == [] {
      assert [] + [a] == [a] && [a][1..] == [];
      assert Runs(Next(w, a), []);
    } else {
      assert (first + [a])[1..] == first[1..] + [a];
      RunAppend(Next(w, first[0]), first[1..], a);
    }
  }

  predicate EndsRefused(log: seq<Event>) {
    log != [] && log[|log| - 1].Refused?
  }

  /** The keys of the prompts before i. */
  function KeysTo(job: Job, i: nat): set<Request>
    requires i <= |job.prompts|
  {
    if i == 0 then {} else KeysTo(job, i - 1) + {job.Key(i - 1)}
  }

  /** The i-th prompt's draw is in no entry, none before asks for it, and the capability
      does not give it. */
  predicate LacksAt(job: Job, outputs: seq<Option<(Bytes, string)>>, entries: map<Request, Drawn>, i: nat)
    requires i < |outputs| == |job.prompts|
  {
    outputs[i].None? && job.Key(i) !in entries.Keys + KeysTo(job, i)
  }

  /** A draw of the first n prompts still missing is not given. */
  predicate Lacks(job: Job, outputs: seq<Option<(Bytes, string)>>, entries: map<Request, Drawn>, n: nat)
    requires n <= |outputs| == |job.prompts|
  {
    n > 0 && (Lacks(job, outputs, entries, n - 1) || LacksAt(job, outputs, entries, n - 1))
  }

  /** It is so exactly when some prompt's draw is, and never when every draw is given. */
  lemma {:induction false} LacksExactly(job: Job, outputs: seq<Option<(Bytes, string)>>, entries: map<Request, Drawn>,
                                        n: nat)
    requires n <= |outputs| == |job.prompts|
    ensures Lacks(job, outputs, entries, n) <==> exists i :: 0 <= i < n && LacksAt(job, outputs, entries, i)
    ensures (forall i :: 0 <= i < n ==> outputs[i].Some?) ==> !Lacks(job, outputs, entries, n)
  {
    if n > 0 {
      LacksExactly(job, outputs, entries, n - 1);
    }
  }

  lemma {:induction false} LacksLater(job: Job, outputs: seq<Option<(Bytes, string)>>, entries: map<Request, Drawn>,
                                      i: nat, n: nat)
    requires i <= n <= |outputs| == |job.prompts| && Lacks(job, outputs, entries, i)
    ensures Lacks(job, outputs, entries, n)
  {
    if i < n {
      LacksLater(job, outputs, entries, i, n - 1);
    }
  }

  lemma LacksFrom(job: Job, outputs: seq<Option<(Bytes, string)>>, entries: map<Request, Drawn>, drawn: set<Request>,
                  i: nat)
    requires i < |outputs| == |job.prompts| && drawn == entries.Keys + KeysTo(job, i)
    requires job.Key(i) !in drawn && outputs[i].None?
    ensures Lacks(job, outputs, entries, |outputs|)
  {
    LacksLater(job, outputs, entries, i + 1, |outputs|);
  }

  lemma LacksNoMore(job: Job, outputs: seq<Option<(Bytes, string)>>, entries: map<Request, Drawn>, drawn: set<Request>,
                    i: nat)
    requires i < |outputs| == |job.prompts| && drawn == entries.Keys + KeysTo(job, i)
    requires !Lacks(job, outputs, entries, i) && (job.Key(i) in drawn || outputs[i].Some?)
    ensures !Lacks(job, outputs, entries, i + 1) && drawn + {job.Key(i)} == entries.Keys + KeysTo(job, i + 1)
  {
  }

  /** A render of the directory's own job is not refused. */
  lemma RefusesNone(w: World, actions: seq<Action>, job: Job)
    requires Runs(w, actions) && OnlyJob(actions, job)
    ensures JobInv(w, job) ==> !EndsRefused(After(w, actions).log)
  {
    if JobInv(w, job) {
      ResumedRenderCompletes(w, actions, job);
    }
  }

  lemma Starts(w: World, job: Job)
    requires w.run.Idle?
    ensures Runs(w, [Start(job)]) && OnlyJob([Start(job)], job)
    ensures var held := AlreadyDrawn(w.disk, job.want);
            && (held.None? ==> After(w, [Start(job)]) == w.(log := w.log + [Refused]))
            && (held.Some? ==> After(w, [Start(job)]) == w.(run := Looking(job, held.value, map[], 0)))
  {
    RunAppend(w, [], Start(job));
    assert [] + [Start(job)] == [Start(job)];
  }

  lemma Finishes(w: World, actions: seq<Action>, now: World, job: Job)
    requires Runs(w, actions) && After(w, actions) == now && OnlyJob(actions, job)
    requires now.run.Looking? && now.run.job == job && now.run.i == |job.prompts|
    ensures Runs(w, actions + [Finish]) && OnlyJob(actions + [Finish], job)
    ensures After(w, actions + [Finish])
         == World(now.disk.(manifest := Some(now.run.held)), Idle, now.log + [Returned(job, now.run.names)])
  {
    RunAppend(w, actions, Finish);
  }

  /** The manifest of the model and the recipe holds the key's own request, and its file is
      there with the bytes it was drawn as. */
  predicate Intact(disk: Disk, binding: Binding, key: Request) {
    match disk.manifest
    case None => false
    case Some(Manifest(drew, _, draws)) =>
      && drew.model == binding.model && drew.recipe == binding.recipe
      && key in draws && draws[key].request == key
      && draws[key].file in disk.files && disk.files[draws[key].file] == draws[key].output
  }

  lemma VerifiedIsIntact(disk: Disk, binding: Binding, key: Request)
    ensures Verified(disk, binding, key) <==> Intact(disk, binding, key)
  {
  }

  /** A directory is admitted exactly when it holds no manifest, or one of the same model,
      recipe, task and settings, whatever build drew it. */
  lemma AdmittedExactly(disk: Disk, want: Manifest)
    ensures AlreadyDrawn(disk, want)
         == match disk.manifest
            case None => Some(Manifest(want.binding, want.commit, map[]))
            case Some(held) =>
              if held.binding.model == want.binding.model && held.binding.recipe == want.binding.recipe
                 && held.binding.task == want.binding.task && held.binding.settings == want.binding.settings
              then Some(held) else None
  {
  }

  /** A media directory, and what was executed into it. */
  class MediaDirectory {
    var disk: Disk
    var log: seq<Event>

    constructor ()
      ensures disk == EMPTY.disk && log == []
    {
      disk, log := Disk(None, map[]), [];
    }

    ghost function Rest(): World
      reads this
    {
      World(disk, Idle, log)
    }

    /** One prompt drawn: its bytes written, its entry added, the manifest saved. */
    method Draw(job: Job, held: Manifest, given: map<string, Request>, i: nat, output: Bytes, extension: string,
                ghost w: World, ghost before: seq<Action>)
        returns (grown: Manifest, ghost actions: seq<Action>)
      requires Runs(w, before) && After(w, before) == World(disk, Looking(job, held, given, i), log)
      requires i < |job.prompts| && job.Key(i) !in held.draws && held.commit == job.want.commit
      modifies this
      ensures actions == before + [Execute(output, extension)] + [WriteFile] + [Save]
      ensures OnlyJob(before, job) ==> OnlyJob(actions, job)
      ensures Runs(w, actions)
      ensures After(w, actions) == World(disk, Looking(job, grown, given[job.prompts[i].id := job.Key(i)], i + 1), log)
      ensures grown == held.(draws := held.draws[job.Key(i) := Drawn(FileName(output, extension), job.Key(i), output)])
      ensures disk == Disk(Some(grown), old(disk).files[FileName(output, extension) := output])
      ensures log == old(log) + [Ran(job.Key(i))]
    {
      var name := FileName(output, extension);
      RunAppend(w, before, Execute(output, extension));
      RunAppend(w, before + [Execute(output, extension)], WriteFile);
      RunAppend(w, before + [Execute(output, extension)] + [WriteFile], Save);
      OnlyJobMore(before, Execute(output, extension), job);
      OnlyJobMore(before + [Execute(output, extension)], WriteFile, job);
      OnlyJobMore(before + [Execute(output, extension)] + [WriteFile], Save, job);
      log := log + [Ran(job.Key(i))];
      disk := disk.(files := disk.files[name := output]);
      grown := held.(draws := held.draws[job.Key(i) := Drawn(name, job.Key(i), output)]);
      disk := disk.(manifest := Some(grown));
      actions := before + [Execute(output, extension)] + [WriteFile] + [Save];
    }

    /** One prompt looked up: it passes when its draw is held and intact, and else is refused. */
    method LookUp(job: Job, held: Manifest, given: map<string, Request>, i: nat,
                  ghost w: World, ghost before: seq<Action>)
        returns (passed: bool, ghost actions: seq<Action>)
      requires Runs(w, before) && After(w, before) == World(disk, Looking(job, held, given, i), log)
      requires i < |job.prompts| && (job.Key(i) in held.draws || held.commit != job.want.commit)
      modifies this`log
      ensures passed <==> job.Key(i) in held.draws && Intact(disk, held.binding, job.Key(i))
      ensures actions == before + [Look] && Runs(w, actions)
      ensures log == if passed then old(log) else old(log) + [Refused]
      ensures After(w, actions)
           == if passed then World(disk, Looking(job, held, given[job.prompts[i].id := job.Key(i)], i + 1), log)
              else Rest()
      ensures OnlyJob(before, job) ==> OnlyJob(actions, job)
    {
      var key := job.Key(i);
      RunAppend(w, before, Look);
      OnlyJobMore(before, Look, job);
      VerifiedIsIntact(disk, held.binding, key);
      actions := before + [Look];
      passed := key in held.draws && Verified(disk, held.binding, key);
      if !passed {
        log := log + [Refused];
      }
    }

    /** One prompt: looked up when its draw is held or the build is another's, and else
        drawn, if the capability gives an output. */
    method RenderPrompt(job: Job, held: Manifest, given: map<string, Request>, i: nat, output: Option<(Bytes, string)>,
                        ghost w: World, ghost before: seq<Action>)
        returns (passed: bool, grown: Manifest, named: map<string, Request>, ghost actions: seq<Action>)
      requires Runs(w, before) && After(w, before) == World(disk, Looking(job, held, given, i), log)
      requires i < |job.prompts| && OnlyJob(before, job)
      modifies this
      ensures Runs(w, actions) && OnlyJob(actions, job)
      ensures passed ==> After(w, actions) == World(disk, Looking(job, grown, named, i + 1), log)
      ensures passed ==> grown.draws.Keys == held.draws.Keys + {job.Key(i)}
      ensures passed ==> named == given[job.prompts[i].id := job.Key(i)]
      ensures job.Key(i) in held.draws ==>
                (passed <==> Intact(old(disk), held.binding, job.Key(i))) && disk == old(disk)
      ensures job.Key(i) !in held.draws ==> (passed <==> held.commit == job.want.commit && output.Some?)
      ensures job.Key(i) !in held.draws && passed ==>
                && var bytes, name := output.value.0, FileName(output.value.0, output.value.1);
                && grown.draws[job.Key(i)] == Drawn(name, job.Key(i), bytes)
                && disk == Disk(Some(grown), old(disk).files[name := bytes])
      ensures var looked := job.Key(i) in held.draws || held.commit != job.want.commit;
              && (looked && passed ==> log == old(log)) && (looked && !passed ==> log == old(log) + [Refused])
              && (!looked && passed ==> log == old(log) + [Ran(job.Key(i))])
              && (!looked && !passed ==> log == old(log) + [Ran(job.Key(i))] + [Interrupted])
      ensures passed ==> job.Key(i) in held.draws || output.Some?
      ensures !passed ==> After(w, actions) == Rest() && actions != [] && !actions[|actions| - 1].Finish?
      ensures !passed ==> EndsRefused(log) || (job.Key(i) !in held.draws && output.None?)
    {
      var key := RenderRequest(job.template, job.want.binding.settings, job.prompts[i], i);
      grown, named := held, given[job.prompts[i].id := key];
      if key in held.draws || held.commit != job.want.commit {
        passed, actions := LookUp(job, held, given, i, w, before);
        assert key in held.draws ==> held.draws.Keys == held.draws.Keys + {key};
      } else if output.None? {
        RunAppend(w, before, Fail);
        OnlyJobMore(before, Fail, job);
        actions := before + [Fail];
        log := log + [Ran(key)] + [Interrupted];
        passed := false;
      } else {
        grown, actions := Draw(job, held, given, i, output.value.0, output.value.1, w, before);
        passed := true;
      }
    }

    /** The prompts in turn, up to the first that is refused or fails. */
    method RenderPrompts(job: Job, outputs: seq<Option<(Bytes, string)>>, first: Manifest,
                         ghost w: World, ghost before: seq<Action>)
        returns (passed: bool, held: Manifest, given: map<string, Request>, ghost actions: seq<Action>)
      requires |outputs| == |job.prompts| && first.draws == Draws(w.disk)
      requires Runs(w, before) && After(w, before) == World(disk, Looking(job, first, map[], 0), log)
      requires OnlyJob(before, job)
      modifies this
      ensures Runs(w, actions) && OnlyJob(actions, job)
      ensures passed ==> After(w, actions) == World(disk, Looking(job, held, given, |job.prompts|), log)
      ensures passed ==> !Lacks(job, outputs, Draws(w.disk), |outputs|)
      ensures !passed ==> After(w, actions) == Rest() && actions != [] && !actions[|actions| - 1].Finish?
      ensures !passed ==> EndsRefused(log) || Lacks(job, outputs, Draws(w.disk), |outputs|)
    {
      passed, held, given, actions := true, first, map[], before;
      for i := 0 to |job.prompts|
        invariant Runs(w, actions) && OnlyJob(actions, job)
        invariant After(w, actions) == World(disk, Looking(job, held, given, i), log)
        invariant held.draws.Keys == Draws(w.disk).Keys + KeysTo(job, i)
        invariant !Lacks(job, outputs, Draws(w.disk), i)
      {
        ghost var drawn := held.draws.Keys;
        passed, held, given, actions := RenderPrompt(job, held, given, i, outputs[i], w, actions);
        if !passed {
          if !EndsRefused(log) {
            LacksFrom(job, outputs, Draws(w.disk), drawn, i);
          }
          return;
        }
        LacksNoMore(job, outputs, Draws(w.disk), drawn, i);
      }
      passed := true;
    }

    /** renderMedia, on a run nothing cuts short: outputs are what the capability gives
        for each prompt it is asked to draw, nothing where it fails. It ends where its
        steps end, what it returns is what it logged, and of a job resumed in its own
        directory it returns the names unless a draw still missing is not given. */
    method RenderMedia(job: Job, outputs: seq<Option<(Bytes, string)>>)
        returns (names: Option<map<string, Request>>, ghost actions: seq<Action>)
      requires |outputs| == |job.prompts|
      modifies this
      ensures Runs(old(Rest()), actions) && After(old(Rest()), actions) == Rest()
      ensures OnlyJob(actions, job)
      ensures AlreadyDrawn(old(disk), job.want).None? ==>
                names.None? && disk == old(disk) && log == old(log) + [Refused]
      ensures names.Some? <==> actions != [] && actions[|actions| - 1].Finish?
      ensures names.Some? ==> log != [] && log[|log| - 1] == Returned(job, names.value)
      ensures names.Some? ==> !Lacks(job, outputs, Draws(old(disk)), |outputs|)
      ensures names.None? && JobInv(old(Rest()), job) ==> Lacks(job, outputs, Draws(old(disk)), |outputs|)
    {
      ghost var w := Rest();
      actions := [Start(job)];
      Starts(w, job);
      var admitted := AlreadyDrawn(disk, job.want);
      if admitted.None? {
        log := log + [Refused];
        RefusesNone(w, actions, job);
        return None, actions;
      }
      var passed, held, given;
      passed, held, given, actions := RenderPrompts(job, outputs, admitted.value, w, actions);
      if !passed {
        RefusesNone(w, actions, job);
        return None, actions;
      }
      Finishes(w, actions, World(disk, Looking(job, held, given, |job.prompts|), log), job);
      actions := actions + [Finish];
      disk := disk.(manifest := Some(held));
      log := log + [Returned(job, given)];
      names := Some(given);
    }
  }
}
