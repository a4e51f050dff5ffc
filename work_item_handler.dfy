/** The human task work item handler: stores the task the resolver creates, claims it for the
    swimlane actor, and, when the task asks for it, issues a derived un-publication command. */
module ExtendedHumanTaskWorkItemHandler {
  import opened Values
  import opened StringUtils
  import opened Tasks
  import opened ExtendedPublicationTaskParameterResolver

  /** The marker in a task's name that identifies an un-publication task. */
  const UnpublicationMarker := "unpub"

  /** The command issued to schedule un-publication. */
  datatype Command = Command(
    commandName: string,
    parameterMapName: string,
    repository: string,
    workflow: string,
    path: Option<string>)

  /** A call made on a host collaborator, in the order made. */
  datatype Event =
    | AddTask(task: TaskView)                     // tasksManager.addTask(task)
    | Claim(taskId: Option<string>, actor: string) // tasksManager.claim(task.getId(), actor)
    | ExecCommand(command: Command, context: Content) // command.execute(new SimpleContext(content))

  /** How the host collaborators answer the calls of one work item: the identifier and path the
      task carries once stored, and which calls throw. */
  datatype Host = Host(
    storedId: Option<string>,
    storedPath: Option<string>,
    addTaskFails: bool,
    claimFails: bool,
    commandFails: bool)

  // The decision rule and the derived command, as values.

  /** The guards of createUnpublicationTask (the task itself is never null here). */
  predicate ShouldUnpublish(t: TaskView)
  {
    && t.content.Some?
    && !Contains(t.name, UnpublicationMarker)
    && ReadsTrue(Get(t.content.value, HasExpiration))
    && Get(t.content.value, ExpirationDate).Some?
  }

  /** The in-place put of the expiration date under publicationDate. */
  function Rewrite(content: Content): (r: Content)
    ensures PublicationDate in r && r[PublicationDate] == Get(content, ExpirationDate)
    ensures r.Keys == content.Keys + {PublicationDate}
    ensures forall key :: key != PublicationDate ==> Get(r, key) == Get(content, key)
  {
    content[PublicationDate := Get(content, ExpirationDate)]
  }

  /** The command built from the (rewritten) content and the task path. toString() on a null
      repository raises before defaultString sees it, so the "website" fallback never applies. */
  function UnpublicationCommand(content: Content, path: Option<string>): (r: Result<Command>)
    ensures r.Err? <==> Get(content, Repository).None?
    ensures r.Err? ==> r.fault == NullPointer(Repository)
    ensures r.Ok? ==> r.value == Command("deactivate", "mgnlData", Text(Get(content, Repository).value),
                                         "reviewForUnpublication", path)
  {
    var repository := Get(content, Repository);
    if repository.None? then Err(NullPointer(Repository))
    else Ok(Command("deactivate", "mgnlData", DefaultString(Some(Text(repository.value)), "website"),
                    "reviewForUnpublication", path))
  }

  /** What createUnpublicationTask does: the calls it makes, the task it leaves, the exception it
      lets escape and the one its own handler swallows. */
  datatype Unpublication = Unpublication(events: seq<Event>, task: TaskView, thrown: Option<Fault>, swallowed: Option<Fault>)

  function Unpublish(t: TaskView, host: Host): Unpublication
  {
    if !ShouldUnpublish(t) then Unpublication([], t, None, None)
    else
      var content := Rewrite(t.content.value);
      var rewritten := t.(content := Some(content));
      match UnpublicationCommand(content, t.path)
      case Err(f) => Unpublication([], rewritten, Some(f), None)
      case Ok(command) =>
        Unpublication([ExecCommand(command, content)], rewritten, None,
                      if host.commandFails then Some(HostFailure(ExecuteCall)) else None)
  }

  /** The swimlane actor parameter, through its `(String)` cast. */
  function SwimlaneActor(w: WorkItem): Result<Option<string>>
  {
    AsString(Parameter(w, SwimlaneActorId), SwimlaneActorId)
  }

  /** isAutoClaim: the swimlane actor is a non-empty string; a non-string value raises. */
  function IsAutoClaim(w: WorkItem): (r: Result<bool>)
    ensures r.Err? <==> Parameter(w, SwimlaneActorId).Some? && !Parameter(w, SwimlaneActorId).value.Str?
    ensures r == Ok(true) <==>
      Parameter(w, SwimlaneActorId).Some? && Parameter(w, SwimlaneActorId).value.Str? &&
      |Parameter(w, SwimlaneActorId).value.s| > 0
    ensures r == Ok(true) ==> SwimlaneActor(w).Ok? && SwimlaneActor(w).value.Some?
  {
    match SwimlaneActor(w)
    case Err(f) => Err(f)
    case Ok(actor) => Ok(IsNotEmpty(actor))
  }

  /** What executeWorkItem does: the calls it makes, the exception its outer handler catches and
      the one the inner handler around command execution catches. */
  datatype Outcome = Outcome(events: seq<Event>, caught: Option<Fault>, swallowed: Option<Fault>)

  /** The task definition registry and the component provider together: the parameter resolver
      built for the definition registered under a task name, or None when the lookup throws
      (a RegistrationException, or no definition for that name). */
  type Registry = Option<string> -> Option<Resolver>

  /** getParameterResolver, fed with the (String) cast of TaskName. */
  function Lookup(registry: Registry, w: WorkItem): Result<Resolver>
  {
    match AsString(Parameter(w, TaskName), TaskName)
    case Err(f) => Err(f)
    case Ok(name) =>
      match registry(name)
      case None => Err(HostFailure(LookupCall))
      case Some(r) => Ok(r)
  }

  /** executeWorkItem as a value: look up the resolver, create the task, then handle it. */
  function Execute(registry: Registry, w: WorkItem, host: Host): Outcome
  {
    match Lookup(registry, w)
    case Err(f) => Outcome([], Some(f), None)
    case Ok(r) =>
      var created := TaskParameters(r, w, Blank);
      if created.fault.Some? then Outcome([], created.fault, None)
      else Handle(created.task, w, host)
  }

  /** The rest of executeWorkItem for a created task t: read its content (the logging loop),
      add it, claim it, and unpublish. */
  function Handle(t: TaskView, w: WorkItem, host: Host): Outcome
  {
    if t.content.None? then Outcome([], Some(NullPointer("content")), None)
    else
      var added := [AddTask(t)];
      if host.addTaskFails then Outcome(added, Some(HostFailure(AddTaskCall)), None)
      else
        var stored := t.(id := host.storedId, path := host.storedPath);
        match IsAutoClaim(w)
        case Err(f) => Outcome(added, Some(f), None)
        case Ok(autoClaim) =>
          var claimed := if autoClaim then [Claim(stored.id, SwimlaneActor(w).value.value)] else [];
          if autoClaim && host.claimFails then Outcome(added + claimed, Some(HostFailure(ClaimCall)), None)
          else
            var u := Unpublish(stored, host);
            Outcome(added + claimed + u.events, u.thrown, u.swallowed)
  }

  /** The task as the rest of executeWorkItem leaves it: untouched when its content is null or
      addTask throws, carrying the host's id and path once stored, and then rewritten by the
      un-publication step if the claim step does not throw. */
  function HandledTask(t: TaskView, w: WorkItem, host: Host): TaskView
  {
    if t.content.None? || host.addTaskFails then t
    else
      var stored := t.(id := host.storedId, path := host.storedPath);
      match IsAutoClaim(w)
      case Err(_) => stored
      case Ok(autoClaim) =>
        if autoClaim && host.claimFails then stored else Unpublish(stored, host).task
  }

  /** The handler object: the registry it looks resolvers up in and the calls it has made on the
      host collaborators. */
  class Handler {
    const registry: Registry
    var events: seq<Event>

    constructor (registry: Registry)
      ensures this.registry == registry && events == []
    {
      this.registry := registry;
      events := [];
    }

    /** executeWorkItem: every exception ends the sequence and is caught, never undoing a call. */
    method ExecuteWorkItem(w: WorkItem, host: Host) returns (caught: Option<Fault>, swallowed: Option<Fault>)
      modifies this
      ensures events == old(events) + Execute(registry, w, host).events
      ensures caught == Execute(registry, w, host).caught
      ensures swallowed == Execute(registry, w, host).swallowed
    {
      swallowed := None;
      var name := AsString(Parameter(w, TaskName), TaskName);
      if name.Err? {
        return Some(name.fault), None;
      }
      var found := registry(name.value);
      if found.None? {
        return Some(HostFailure(LookupCall)), None;
      }
      var task, fault := CreateTask(found.value, w);
      if fault.Some? {
        return fault, None;
      }
      caught, swallowed := HandleTask(task, w, host);
    }

    /** The body of executeWorkItem's try block after createTask. */
    method HandleTask(task: HumanTask, w: WorkItem, host: Host) returns (caught: Option<Fault>, swallowed: Option<Fault>)
      modifies this, task
      ensures events == old(events) + Handle(old(task.View()), w, host).events
      ensures caught == Handle(old(task.View()), w, host).caught
      ensures swallowed == Handle(old(task.View()), w, host).swallowed
      ensures task.View() == HandledTask(old(task.View()), w, host)
    {
      swallowed := None;
      if task.content.None? {
        return Some(NullPointer("content")), None;
      }
      events := events + [AddTask(task.View())];
      if host.addTaskFails {
        return Some(HostFailure(AddTaskCall)), None;
      }
      task.id, task.path := host.storedId, host.storedPath;
      var autoClaim := IsAutoClaim(w);
      if autoClaim.Err? {
        return Some(autoClaim.fault), None;
      }
      if autoClaim.value {
        var actor := SwimlaneActor(w).value.value;
        events := events + [Claim(task.id, actor)];
        if host.claimFails {
          return Some(HostFailure(ClaimCall)), None;
        }
      }
      caught, swallowed := CreateUnpublicationTask(task, host);
    }

    /** createUnpublicationTask: rewrites the content in place and issues the command when the
        task meets every guard; a failing command execution is swallowed here. */
    method CreateUnpublicationTask(task: HumanTask, host: Host) returns (thrown: Option<Fault>, swallowed: Option<Fault>)
      modifies this, task
      ensures events == old(events) + Unpublish(old(task.View()), host).events
      ensures task.View() == Unpublish(old(task.View()), host).task
      ensures thrown == Unpublish(old(task.View()), host).thrown
      ensures swallowed == Unpublish(old(task.View()), host).swallowed
    {
      thrown, swallowed := None, None;
      if task.content.Some? && !Contains(task.name, UnpublicationMarker) {
        var hasExpirationDate := Get(task.content.value, HasExpiration);
        var depublicationDate := Get(task.content.value, ExpirationDate);
        if hasExpirationDate.Some? && Text(hasExpirationDate.value) == "true" && depublicationDate.Some? {
          task.content := Some(task.content.value[PublicationDate := depublicationDate]);
          var repository := Get(task.content.value, Repository);
          if repository.None? {
            return Some(NullPointer(Repository)), None;
          }
          var command := Command("deactivate", "mgnlData", DefaultString(Some(Text(repository.value)), "website"),
                                 "reviewForUnpublication", task.path);
          events := events + [ExecCommand(command, task.content.value)];
          if host.commandFails {
            swallowed := Some(HostFailure(ExecuteCall));
          }
        }
      }
    }
  }

  // Properties of createUnpublicationTask.

  /** A task whose name contains "unpub" never issues a command and is left as it was:
      un-publication tasks do not chain. */
  lemma NoChaining(t: TaskView, host: Host, before: string, after: string)
    requires t.name == Some(before + UnpublicationMarker + after)
    ensures Unpublish(t, host) == Unpublication([], t, None, None)
  {
    OccursInside(before, UnpublicationMarker, after);
  }

  /** The task the un-publication workflow creates is named "unpublish", so it never chains. */
  lemma UnpublishTaskNeverChains(t: TaskView, host: Host)
    requires t.name == Some("unpublish")
    ensures Unpublish(t, host).events == []
  {
    assert "unpublish" == "" + UnpublicationMarker + "lish";
    NoChaining(t, host, "", "lish");
  }

  /** A null name does not block the trigger. */
  lemma NullNameDoesNotBlock(t: TaskView)
    requires t.name.None? && t.content.Some?
    requires ReadsTrue(Get(t.content.value, HasExpiration)) && Get(t.content.value, ExpirationDate).Some?
    ensures ShouldUnpublish(t)
  {
  }

  /** A command is issued exactly when every guard holds and the content names a repository;
      it is the deactivate command for the task's path, run over the rewritten content. */
  lemma UnpublishCommandIff(t: TaskView, host: Host)
    ensures Unpublish(t, host).events != [] <==> ShouldUnpublish(t) && Get(t.content.value, Repository).Some?
    ensures Unpublish(t, host).events != [] ==>
      Unpublish(t, host).events == [ExecCommand(
        Command("deactivate", "mgnlData", Text(Get(t.content.value, Repository).value), "reviewForUnpublication", t.path),
        Rewrite(t.content.value))]
  {
  }

  /** If triggered, the content's publicationDate now holds the expiration date and nothing else of
      the task changes; otherwise the task is untouched. */
  lemma UnpublishRewritesOneKey(t: TaskView, host: Host)
    ensures !ShouldUnpublish(t) ==> Unpublish(t, host).task == t
    ensures ShouldUnpublish(t) ==>
      && Unpublish(t, host).task == t.(content := Unpublish(t, host).task.content)
      && Unpublish(t, host).task.content.Some?
      && Get(Unpublish(t, host).task.content.value, PublicationDate) == Get(t.content.value, ExpirationDate)
      && (forall key :: key != PublicationDate ==>
            Get(Unpublish(t, host).task.content.value, key) == Get(t.content.value, key))
  {
  }

  /** The marker is case-sensitive: a task named "Unpublish" or "UNPUBLISH" is not recognised as
      an un-publication task. */
  lemma MarkerIsCaseSensitive()
    ensures !Contains(Some("Unpublish"), UnpublicationMarker)
    ensures !Contains(Some("UNPUBLISH"), UnpublicationMarker)
  {
    AbsentPairNotFound("Unpublish", UnpublicationMarker);
    AbsentPairNotFound("UNPUBLISH", UnpublicationMarker);
  }

  /** A null repository raises after the content was rewritten and before any command is issued. */
  lemma NullRepositoryThrows(t: TaskView, host: Host)
    requires ShouldUnpublish(t) && Get(t.content.value, Repository).None?
    ensures Unpublish(t, host).events == []
    ensures Unpublish(t, host).thrown == Some(NullPointer(Repository))
    ensures Unpublish(t, host).task.content == Some(Rewrite(t.content.value))
  {
  }

  // Properties of executeWorkItem.

  /** What the task becomes: only the host's id and path and, through the un-publication step,
      the content's publicationDate can change; a task whose content is null or that addTask
      refused is untouched. */
  lemma HandledTaskChanges(t: TaskView, w: WorkItem, host: Host)
    ensures t.content.None? || host.addTaskFails ==> HandledTask(t, w, host) == t
    ensures t.content.Some? && !host.addTaskFails ==>
      && HandledTask(t, w, host).id == host.storedId
      && HandledTask(t, w, host).path == host.storedPath
      && HandledTask(t, w, host) == t.(id := host.storedId, path := host.storedPath, content := HandledTask(t, w, host).content)
      && (|| HandledTask(t, w, host).content == t.content
          || HandledTask(t, w, host).content == Some(Rewrite(t.content.value)))
  {
    if t.content.Some? && !host.addTaskFails {
      UnpublishRewritesOneKey(t.(id := host.storedId, path := host.storedPath), host);
    }
  }

  /** The calls are addTask, then possibly claim, then possibly the command, in that order. */
  predicate InOrder(events: seq<Event>)
  {
    || events == []
    || (&& events[0].AddTask?
        && (|| |events| == 1
            || (|events| == 2 && (events[1].Claim? || events[1].ExecCommand?))
            || (|events| == 3 && events[1].Claim? && events[2].ExecCommand?)))
  }

  predicate IssuesCommand(events: seq<Event>)
  {
    exists i :: 0 <= i < |events| && events[i].ExecCommand?
  }

  predicate IssuesClaim(events: seq<Event>)
  {
    exists i :: 0 <= i < |events| && events[i].Claim?
  }

  /** The created task has content exactly when the work item carries a data map. */
  lemma TaskContentIffData(r: Resolver, w: WorkItem)
    requires TaskParameters(r, w, Blank).fault.None?
    ensures TaskParameters(r, w, Blank).task.content.Some? <==> Parameter(w, VariableData).Some?
    ensures Parameter(w, VariableData).Some? ==>
      TaskParameters(r, w, Blank).task.content == Some(TaskContent(Parameter(w, VariableData).value.entries, r.parse))
  {
  }

  /** The task was created from the work item and carries content, so addTask is called. */
  predicate Created(registry: Registry, w: WorkItem)
  {
    && Lookup(registry, w).Ok?
    && TaskParameters(Lookup(registry, w).value, w, Blank).fault.None?
    && Parameter(w, VariableData).Some?
  }

  /** The lookup succeeds exactly when TaskName casts to a String (possibly null) the registry
      resolves, and yields that resolver; an unknown name makes no call and its exception is caught. */
  lemma LookupOkIff(registry: Registry, w: WorkItem, host: Host)
    ensures Lookup(registry, w).Ok? <==>
      AsString(Parameter(w, TaskName), TaskName).Ok? && registry(AsString(Parameter(w, TaskName), TaskName).value).Some?
    ensures Lookup(registry, w).Ok? ==> Lookup(registry, w).value == registry(AsString(Parameter(w, TaskName), TaskName).value).value
    ensures AsString(Parameter(w, TaskName), TaskName).Ok? && registry(AsString(Parameter(w, TaskName), TaskName).value).None? ==>
      Execute(registry, w, host) == Outcome([], Some(HostFailure(LookupCall)), None)
  {
  }

  /** The host answering every call without throwing. */
  function Reliable(host: Host): Host
  {
    host.(addTaskFails := false, claimFails := false, commandFails := false)
  }

  lemma {:induction false} EffectsInOrder(registry: Registry, w: WorkItem, host: Host)
    ensures InOrder(Execute(registry, w, host).events)
  {
    if Lookup(registry, w).Ok? && TaskParameters(Lookup(registry, w).value, w, Blank).fault.None? {
      var r := Lookup(registry, w).value;
      var t := TaskParameters(r, w, Blank).task;
      var stored := t.(id := host.storedId, path := host.storedPath);
      UnpublishCommandIff(stored, host);
    }
  }

  /** addTask is called exactly when the task was created with content, and it is called first,
      with the task the resolver created. */
  lemma {:induction false} AddTaskIff(registry: Registry, w: WorkItem, host: Host)
    ensures Execute(registry, w, host).events != [] <==> Created(registry, w)
    ensures Execute(registry, w, host).events != [] ==> Execute(registry, w, host).events[0] == AddTask(TaskParameters(Lookup(registry, w).value, w, Blank).task)
  {
    if Lookup(registry, w).Ok? && TaskParameters(Lookup(registry, w).value, w, Blank).fault.None? {
      var r := Lookup(registry, w).value;
      TaskContentIffData(r, w);
    }
  }

  /** The task is claimed exactly when it was stored and the swimlane actor is a non-empty
      string, and the claim is for the stored task's identifier and that actor. */
  lemma {:induction false} ClaimIff(registry: Registry, w: WorkItem, host: Host)
    ensures IssuesClaim(Execute(registry, w, host).events) <==>
      Created(registry, w) && !host.addTaskFails && IsAutoClaim(w) == Ok(true)
    ensures forall i :: 0 <= i < |Execute(registry, w, host).events| && Execute(registry, w, host).events[i].Claim? ==>
      Execute(registry, w, host).events[i] == Claim(host.storedId, Parameter(w, SwimlaneActorId).value.s)
  {
    var e := Execute(registry, w, host).events;
    if Created(registry, w) && !host.addTaskFails && IsAutoClaim(w).Ok? {
      var r := Lookup(registry, w).value;
      TaskContentIffData(r, w);
      var t := TaskParameters(r, w, Blank).task;
      var stored := t.(id := host.storedId, path := host.storedPath);
      UnpublishCommandIff(stored, host);
      if IsAutoClaim(w).value {
        assert e[1].Claim?;
      }
    } else if Lookup(registry, w).Ok? && TaskParameters(Lookup(registry, w).value, w, Blank).fault.None? {
      var r := Lookup(registry, w).value;
      TaskContentIffData(r, w);
    }
  }

  /** The facts of the task content that createUnpublicationTask reads. */
  lemma TaskContentGuards(data: Content, parse: Parser)
    ensures ReadsTrue(Get(TaskContent(data, parse), HasExpiration)) <==> ExpirationRequested(data)
    ensures Get(TaskContent(data, parse), ExpirationDate) == (if ExpirationRequested(data) then Get(data, ExpirationDate) else None)
    ensures Get(TaskContent(data, parse), Repository) == Get(data, Repository)
  {
    TaskContentKeys(data, parse);
    TaskContentCopies(data, parse, Repository);
    if ExpirationRequested(data) {
      TaskContentExpiration(data, parse);
    }
  }

  /** End to end: the un-publication command is issued exactly when the work item's task is
      created and stored, the claim (if any) succeeds, the name does not contain "unpub", the
      dialog's flag reads "true", and the data map holds an expiration date and a repository. */
  lemma {:induction false} CommandIff(registry: Registry, w: WorkItem, host: Host)
    ensures IssuesCommand(Execute(registry, w, host).events) <==>
      && Created(registry, w)
      && !host.addTaskFails
      && IsAutoClaim(w).Ok? && !(IsAutoClaim(w).value && host.claimFails)
      && !Contains(AsString(Parameter(w, TaskName), TaskName).value, UnpublicationMarker)
      && ExpirationRequested(Parameter(w, VariableData).value.entries)
      && Get(Parameter(w, VariableData).value.entries, ExpirationDate).Some?
      && Get(Parameter(w, VariableData).value.entries, Repository).Some?
  {
    var e := Execute(registry, w, host).events;
    if Created(registry, w) && !host.addTaskFails && IsAutoClaim(w).Ok? && !(IsAutoClaim(w).value && host.claimFails) {
      var r := Lookup(registry, w).value;
      TaskContentIffData(r, w);
      var data := Parameter(w, VariableData).value.entries;
      var t := TaskParameters(r, w, Blank).task;
      var stored := t.(id := host.storedId, path := host.storedPath);
      TaskContentGuards(data, r.parse);
      UnpublishCommandIff(stored, host);
      if Unpublish(stored, host).events != [] {
        assert e[|e| - 1].ExecCommand?;
      }
    } else if Lookup(registry, w).Ok? && TaskParameters(Lookup(registry, w).value, w, Blank).fault.None? {
      var r := Lookup(registry, w).value;
      TaskContentIffData(r, w);
    }
  }

  /** A task whose name contains "unpub" never leads to a command, however the work item is handled. */
  lemma NoChainingFromWorkItem(registry: Registry, w: WorkItem, host: Host, before: string, after: string)
    requires Parameter(w, TaskName) == Some(Str(before + UnpublicationMarker + after))
    ensures !IssuesCommand(Execute(registry, w, host).events)
  {
    OccursInside(before, UnpublicationMarker, after);
    CommandIff(registry, w, host);
  }

  /** A throwing host call only cuts off the calls after it: the calls made are a prefix of
      those made when the host throws nothing. */
  lemma {:induction false} FailuresOnlyTruncate(registry: Registry, w: WorkItem, host: Host)
    ensures Execute(registry, w, host).events <= Execute(registry, w, Reliable(host)).events
  {
    if Lookup(registry, w).Ok? && TaskParameters(Lookup(registry, w).value, w, Blank).fault.None? {
      var r := Lookup(registry, w).value;
      var t := TaskParameters(r, w, Blank).task;
      assert Unpublish(t.(id := host.storedId, path := host.storedPath), host).events
          == Unpublish(t.(id := host.storedId, path := host.storedPath), Reliable(host)).events;
    }
  }

  /** A failing command execution is swallowed by the inner handler: the calls made and what the
      outer handler catches are as if it had succeeded. */
  lemma {:induction false} CommandFailureSwallowed(registry: Registry, w: WorkItem, host: Host)
    requires host.commandFails
    ensures Execute(registry, w, host).events == Execute(registry, w, host.(commandFails := false)).events
    ensures Execute(registry, w, host).caught == Execute(registry, w, host.(commandFails := false)).caught
    ensures IssuesCommand(Execute(registry, w, host).events) ==> Execute(registry, w, host).swallowed == Some(HostFailure(ExecuteCall))
  {
    if Lookup(registry, w).Ok? && TaskParameters(Lookup(registry, w).value, w, Blank).fault.None? {
      var r := Lookup(registry, w).value;
      var t := TaskParameters(r, w, Blank).task;
      var stored := t.(id := host.storedId, path := host.storedPath);
      UnpublishCommandIff(stored, host);
    }
  }
}
