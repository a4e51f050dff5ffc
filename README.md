# Expiration workflow: a Dafny model

This project models the two pieces of the Magnolia "expiration workflow" module that contain logic of their own.

- **The publication task parameter resolver** (`ExtendedPublicationTaskParameterResolver`) turns a work item into a publication-approval human task. The task gets:
  - its name, from the `TaskName` parameter;
  - its actors and groups, from the task definition;
  - its comment and requestor, from the publish dialog's data map;
  - a cleaned content map. That map holds seven copied keys and the parsed `publicationDate`. It also holds `hasExpirationDate` and `expirationDate`, but only when the dialog's flag reads `"true"`.
- **The human task work item handler** (`ExtendedHumanTaskWorkItemHandler`) does three things in order:
  - it stores the task;
  - it claims the task for the swimlane actor, if one is given;
  - if the task asks for un-publication, it rewrites the task's `publicationDate` to the expiration date and runs a derived `deactivate` command through the `reviewForUnpublication` workflow.

All exceptions are caught inside the handler.

Java objects are modelled as `Values.Value`:
- A `String` is a `Str`, a `Boolean` a `Flag`, a `Date` an `Instant` and a `Map` a `Dict`.
- Any other object is an `Other`, held by its `toString()` text.
- `Date` and `Map` values carry their `toString()` text rather than computing it. That text depends on the JVM's time zone and on `HashMap` iteration order.

Maps are `map<string, Option<Value>>`, where `None` is Java's `null`. `Values.Get` is `Map.get`: it gives `null` for an absent key and for a key bound to `null`. The casts `(String)` and `(Map)` are modelled with their errors. A `ClassCastException` or `NullPointerException` becomes a `Values.Fault` that ends the sequence, as the Java exception does.

The host collaborators are modelled as follows:
- The tasks manager and command execution are an event log, `Handler.events`: `AddTask`, `Claim` and `ExecCommand`, in the order the calls are made.
- A `Host` value says how the host answers one work item: the identifier and path the stored task carries, and which of the three calls throw.
- The task definition registry and the component provider are one function, a `Registry`, from the task name to an `ExtendedPublicationTaskParameterResolver` built for its definition (its task definition's actors and groups, and its own date parser). Every resolver the registry yields is of this class. `None` stands for a lookup that throws: a `RegistrationException`, or no definition for that name.
- The date parser (`SimpleDateFormat` with pattern `yyyy-MM-dd'T'HH:mm:ss`) is an opaque total function `string -> Option<Date>`. `None` stands for a `ParseException`.

Each state-changing method is proved equal to a pure function:
- `SetTaskParameters` and `CreateTask` to `TaskParameters`;
- `NewTaskContent` to `TaskContent`;
- `CreateUnpublicationTask` to `Unpublish`;
- `HandleTask` to `Handle`, and the task it leaves behind to `HandledTask`;
- `ExecuteWorkItem` to `Execute`.

The properties are proved as lemmas about those functions.

Some behaviour the proofs bring out:
- `StringUtils.contains` is null-safe: it returns false for a `null` name, so a task whose name is `null` does not block the trigger in `createUnpublicationTask` (`NullNameDoesNotBlock`). End to end, a `null` `TaskName` still has to get past the registry lookup, which the model leaves to the `Registry`.
- `StringUtils.contains` is also case-sensitive, so tasks named `Unpublish` or `UNPUBLISH` are not recognised as un-publication tasks (`MarkerIsCaseSensitive`).
- The un-publication workflow's own task is named `unpublish`, so it never triggers again (`UnpublishTaskNeverChains`).
- The `"website"` fallback in `defaultString` never applies. A `null` repository makes `toString()` throw first. By then the content's `publicationDate` has already been rewritten. The exception is caught by the outer handler and no command is issued (`NullRepositoryThrows`).
- A `null` data map leaves the task without content. The handler's logging loop then dereferences that `null` content before `addTask`, so nothing is stored (`AddTaskIff`).
- The code, not the class comment of the handler ("schedules an additonal [sic] task for un-publication if parameters are provided", handler line 47), decides the trigger. The flag's string form must equal `"true"` exactly, and `expirationDate` only has to be non-null. It is neither parsed nor checked.

## Model

| member | source | states |
|---|---|---|
| `Values.AsString` | src/main/java/info/magnolia/module/workflow/jbpm/humantask/parameter/ExtendedPublicationTaskParameterResolver.java:71 | the `(String)` cast fails exactly on a non-null non-string value; otherwise it yields null or the string itself |
| `Values.AsMap` | src/main/java/info/magnolia/module/workflow/jbpm/humantask/parameter/ExtendedPublicationTaskParameterResolver.java:76 | the `(Map)` cast fails exactly on a non-null non-map value; otherwise it yields null or the map's entries |
| `StringUtils.OccursIff` | src/main/java/info/magnolia/module/workflow/jbpm/humantask/handler/ExtendedHumanTaskWorkItemHandler.java:110 | the left-to-right scan behind `contains` finds a string exactly when it occurs at some position |
| `StringUtils.AbsentPairNotFound` | src/main/java/info/magnolia/module/workflow/jbpm/humantask/handler/ExtendedHumanTaskWorkItemHandler.java:110 | a string in which the first two characters of the search string never stand side by side does not contain it |
| `StringUtils.OccursInside` | src/main/java/info/magnolia/module/workflow/jbpm/humantask/handler/ExtendedHumanTaskWorkItemHandler.java:110 | any string of the form before + "unpub" + after contains "unpub" |
| `Tasks.HumanTask.constructor` | src/main/java/info/magnolia/module/workflow/jbpm/humantask/parameter/ExtendedPublicationTaskParameterResolver.java:62 | a new task has every field null |
| `ExtendedPublicationTaskParameterResolver.GetDateByText` | src/main/java/info/magnolia/module/workflow/jbpm/humantask/parameter/ExtendedPublicationTaskParameterResolver.java:112-123 | the date depends only on the value's string form: two non-null values with the same `String.valueOf` text give the same date, whatever their types |
| `ExtendedPublicationTaskParameterResolver.NewTaskContent` | src/main/java/info/magnolia/module/workflow/jbpm/humantask/parameter/ExtendedPublicationTaskParameterResolver.java:89-107 | the successive puts build exactly the declarative task content: copied keys, parsed date, and the expiration pair when requested |
| `ExtendedPublicationTaskParameterResolver.SetTaskContent` | src/main/java/info/magnolia/module/workflow/jbpm/humantask/parameter/ExtendedPublicationTaskParameterResolver.java:88-110 | the task's content becomes the task content of the data map; no other field of the task changes |
| `ExtendedPublicationTaskParameterResolver.SetTaskParameters` | src/main/java/info/magnolia/module/workflow/jbpm/humantask/parameter/ExtendedPublicationTaskParameterResolver.java:70-83 | the setters run in source order; the task's new fields and the exception of a failing cast are those of `TaskParameters` |
| `ExtendedPublicationTaskParameterResolver.CreateTask` | src/main/java/info/magnolia/module/workflow/jbpm/humantask/parameter/ExtendedPublicationTaskParameterResolver.java:61-67 | returns a fresh task with the task parameters applied to a blank task |
| `ExtendedPublicationTaskParameterResolver.TaskContentKeys` | src/main/java/info/magnolia/module/workflow/jbpm/humantask/parameter/ExtendedPublicationTaskParameterResolver.java:88-107 | the content holds the seven copied keys and publicationDate, holds each expiration key if and only if the flag reads "true", and holds no other key |
| `ExtendedPublicationTaskParameterResolver.TaskContentCopies` | src/main/java/info/magnolia/module/workflow/jbpm/humantask/parameter/ExtendedPublicationTaskParameterResolver.java:90-96 | each copied key holds the data map's value, or null when the key is absent |
| `ExtendedPublicationTaskParameterResolver.TaskContentExpiration` | src/main/java/info/magnolia/module/workflow/jbpm/humantask/parameter/ExtendedPublicationTaskParameterResolver.java:102-106 | when requested, hasExpirationDate is the literal string "true" whatever the flag's type, and expirationDate is the data map's value, not parsed |
| `ExtendedPublicationTaskParameterResolver.TaskContentPublicationDate` | src/main/java/info/magnolia/module/workflow/jbpm/humantask/parameter/ExtendedPublicationTaskParameterResolver.java:97 | publicationDate is null for a null value or a failed parse; otherwise it is the parsed date |
| `ExtendedPublicationTaskParameterResolver.TaskContentReadsOnly` | src/main/java/info/magnolia/module/workflow/jbpm/humantask/parameter/ExtendedPublicationTaskParameterResolver.java:88-107 | two data maps that agree on the ten keys read give the same content; no other input key matters |
| `ExtendedPublicationTaskParameterResolver.FlagReadsTrueIff` | src/main/java/info/magnolia/module/workflow/jbpm/humantask/parameter/ExtendedPublicationTaskParameterResolver.java:103 | a string flag passes the test if and only if it is exactly "true"; a Boolean flag if and only if it is true; a null flag never |
| `ExtendedPublicationTaskParameterResolver.NameAndAssigneesAlwaysSet` | src/main/java/info/magnolia/module/workflow/jbpm/humantask/parameter/ExtendedPublicationTaskParameterResolver.java:71-74 | once TaskName is read, name, actors and groups are set, from the parameter and the definition, however the rest ends |
| `ExtendedPublicationTaskParameterResolver.NullDataLeavesTaskUntouched` | src/main/java/info/magnolia/module/workflow/jbpm/humantask/parameter/ExtendedPublicationTaskParameterResolver.java:76-82 | without a data map, comment, requestor and content are unchanged and nothing fails |
| `ExtendedPublicationTaskParameterResolver.DataMapCopied` | src/main/java/info/magnolia/module/workflow/jbpm/humantask/parameter/ExtendedPublicationTaskParameterResolver.java:76-82 | with a data map, comment and requestor are copied from it and the content is its projection |
| `ExtendedPublicationTaskParameterResolver.TaskParametersFailIff` | src/main/java/info/magnolia/module/workflow/jbpm/humantask/parameter/ExtendedPublicationTaskParameterResolver.java:71-79 | setTaskParameters fails exactly when the TaskName, data map, comment or requestor cast meets a value of the wrong type |
| `ExtendedHumanTaskWorkItemHandler.IsAutoClaim` | src/main/java/info/magnolia/module/workflow/jbpm/humantask/handler/ExtendedHumanTaskWorkItemHandler.java:143-147 | true exactly when SwimlaneActorId is a non-empty string; a non-string value raises |
| `ExtendedHumanTaskWorkItemHandler.Rewrite` | src/main/java/info/magnolia/module/workflow/jbpm/humantask/handler/ExtendedHumanTaskWorkItemHandler.java:118 | publicationDate now holds the expiration date; no other key changes |
| `ExtendedHumanTaskWorkItemHandler.UnpublicationCommand` | src/main/java/info/magnolia/module/workflow/jbpm/humantask/handler/ExtendedHumanTaskWorkItemHandler.java:120-126 | a null repository raises; otherwise the command is deactivate / mgnlData / the repository's string form / reviewForUnpublication / the task path |
| `ExtendedHumanTaskWorkItemHandler.NoChaining` | src/main/java/info/magnolia/module/workflow/jbpm/humantask/handler/ExtendedHumanTaskWorkItemHandler.java:110 | a task whose name contains "unpub" issues nothing and is left unchanged |
| `ExtendedHumanTaskWorkItemHandler.UnpublishTaskNeverChains` | src/main/java/info/magnolia/module/workflow/jbpm/humantask/handler/ExtendedHumanTaskWorkItemHandler.java:110 | the un-publication task, named "unpublish", never issues a command |
| `ExtendedHumanTaskWorkItemHandler.MarkerIsCaseSensitive` | src/main/java/info/magnolia/module/workflow/jbpm/humantask/handler/ExtendedHumanTaskWorkItemHandler.java:110 | names "Unpublish" and "UNPUBLISH" do not contain the marker "unpub" |
| `ExtendedHumanTaskWorkItemHandler.NullNameDoesNotBlock` | src/main/java/info/magnolia/module/workflow/jbpm/humantask/handler/ExtendedHumanTaskWorkItemHandler.java:110 | a null name with the flag and date present triggers |
| `ExtendedHumanTaskWorkItemHandler.UnpublishCommandIff` | src/main/java/info/magnolia/module/workflow/jbpm/humantask/handler/ExtendedHumanTaskWorkItemHandler.java:108-129 | a command is issued if and only if the guards hold and the repository is non-null; it is the deactivate command run over the rewritten content |
| `ExtendedHumanTaskWorkItemHandler.UnpublishRewritesOneKey` | src/main/java/info/magnolia/module/workflow/jbpm/humantask/handler/ExtendedHumanTaskWorkItemHandler.java:118 | when triggered, only the content's publicationDate changes, to the expiration date; otherwise the task is untouched |
| `ExtendedHumanTaskWorkItemHandler.NullRepositoryThrows` | src/main/java/info/magnolia/module/workflow/jbpm/humantask/handler/ExtendedHumanTaskWorkItemHandler.java:123 | a null repository raises after the rewrite and before any command; the "website" default is never used |
| `ExtendedHumanTaskWorkItemHandler.LookupOkIff` | src/main/java/info/magnolia/module/workflow/jbpm/humantask/handler/ExtendedHumanTaskWorkItemHandler.java:150-154 | the lookup succeeds if and only if TaskName casts to a String (or null) that the registry resolves, and yields that resolver; a failing lookup makes no call and its exception is caught |
| `ExtendedHumanTaskWorkItemHandler.Handler.constructor` | src/main/java/info/magnolia/module/workflow/jbpm/humantask/handler/ExtendedHumanTaskWorkItemHandler.java:69-76 | a handler over the given registry has made no calls yet |
| `ExtendedHumanTaskWorkItemHandler.Handler.ExecuteWorkItem` | src/main/java/info/magnolia/module/workflow/jbpm/humantask/handler/ExtendedHumanTaskWorkItemHandler.java:79-101 | appends exactly the calls of `Execute`; every exception is caught and reported, never propagated |
| `ExtendedHumanTaskWorkItemHandler.Handler.HandleTask` | src/main/java/info/magnolia/module/workflow/jbpm/humantask/handler/ExtendedHumanTaskWorkItemHandler.java:84-96 | the content read, addTask, the optional claim and the un-publication step, as `Handle` states them; the task's final fields are those of `HandledTask` |
| `ExtendedHumanTaskWorkItemHandler.HandledTaskChanges` | src/main/java/info/magnolia/module/workflow/jbpm/humantask/handler/ExtendedHumanTaskWorkItemHandler.java:84-96 | a task without content, or one addTask rejects, is left as it was; otherwise it carries the host's id and path and, at most, a content whose publicationDate was rewritten |
| `ExtendedHumanTaskWorkItemHandler.Handler.CreateUnpublicationTask` | src/main/java/info/magnolia/module/workflow/jbpm/humantask/handler/ExtendedHumanTaskWorkItemHandler.java:107-136 | rewrites the content in place and issues the command as `Unpublish` states; a failing execution is swallowed here |
| `ExtendedHumanTaskWorkItemHandler.EffectsInOrder` | src/main/java/info/magnolia/module/workflow/jbpm/humantask/handler/ExtendedHumanTaskWorkItemHandler.java:89-96 | the calls are addTask, then an optional claim, then an optional command, and nothing else |
| `ExtendedHumanTaskWorkItemHandler.AddTaskIff` | src/main/java/info/magnolia/module/workflow/jbpm/humantask/handler/ExtendedHumanTaskWorkItemHandler.java:81-89 | addTask is called, first and with the resolver's task, if and only if the resolver is found and the task was created with content |
| `ExtendedHumanTaskWorkItemHandler.TaskContentIffData` | src/main/java/info/magnolia/module/workflow/jbpm/humantask/parameter/ExtendedPublicationTaskParameterResolver.java:76-82 | a created task has content if and only if the work item carries a data map, and that content is the data map's projection |
| `ExtendedHumanTaskWorkItemHandler.ClaimIff` | src/main/java/info/magnolia/module/workflow/jbpm/humantask/handler/ExtendedHumanTaskWorkItemHandler.java:91-93 | the task is claimed if and only if it was stored and SwimlaneActorId is a non-empty string; the claim is for the stored id and that actor |
| `ExtendedHumanTaskWorkItemHandler.TaskContentGuards` | src/main/java/info/magnolia/module/workflow/jbpm/humantask/handler/ExtendedHumanTaskWorkItemHandler.java:112-115 | the flag, the expiration date and the repository that the handler reads back are those the resolver took from the data map |
| `ExtendedHumanTaskWorkItemHandler.CommandIff` | src/main/java/info/magnolia/module/workflow/jbpm/humantask/handler/ExtendedHumanTaskWorkItemHandler.java:80-133 | end to end: the command is issued if and only if the resolver is found, the task is created and stored, the claim succeeds, the name lacks "unpub", the flag reads "true", and the expiration date and repository are non-null |
| `ExtendedHumanTaskWorkItemHandler.NoChainingFromWorkItem` | src/main/java/info/magnolia/module/workflow/jbpm/humantask/handler/ExtendedHumanTaskWorkItemHandler.java:110 | a work item whose TaskName contains "unpub" never leads to a command |
| `ExtendedHumanTaskWorkItemHandler.FailuresOnlyTruncate` | src/main/java/info/magnolia/module/workflow/jbpm/humantask/handler/ExtendedHumanTaskWorkItemHandler.java:98-100 | a throwing host call only cuts off later calls: the calls made are a prefix of those made when nothing throws |
| `ExtendedHumanTaskWorkItemHandler.CommandFailureSwallowed` | src/main/java/info/magnolia/module/workflow/jbpm/humantask/handler/ExtendedHumanTaskWorkItemHandler.java:128-132 | a failing command execution changes neither the calls made nor what the outer handler catches; the inner handler records it |

## Left out

- Logging: every `log.*` call is left out. So is the loop that logs the task content, except that the loop dereferences the content. A `null` content therefore raises before `addTask`.
- `abortWorkItem` only logs, so it is not modelled.
- Resolver lookup through `TaskDefinitionRegistry` and `ComponentProvider` is reflection into host code. It is the `Registry` function: which names it resolves, and to which definition's actors and groups, is left open. A missing definition (the `NullPointerException` on `definition`) and a `RegistrationException` are both the one `LookupCall` failure.
- `ExtendedHumanTaskWorkItemHandler.Execute`: every resolver the registry yields is an `ExtendedPublicationTaskParameterResolver`. The handler calls `createTask` through the `HumanTaskParameterResolver` interface, and a task definition may name another resolver class; such definitions are not modelled. The end-to-end lemmas over `Execute` (`AddTaskIff`, `TaskContentIffData`, `ClaimIff`, `CommandIff`, `NoChainingFromWorkItem`, `FailuresOnlyTruncate`, `CommandFailureSwallowed`, `EffectsInOrder`) therefore cover the publish and unpublish tasks, the two this module configures with this resolver, and not other human tasks the handler also serves. The lemmas about `createUnpublicationTask` hold for any task.
- `setProcessData` lives in the host's abstract resolver, which is not part of this model. It sets process fields such as the work item id, and the model's task does not have those fields.
- `TasksManager.addTask` and `claim`, and `PublicationWorkflowCommand.execute`, are host I/O. They are recorded as events, with their success or failure given by `Host`.
- The identifier and path of a stored task are whatever the host gives. The model reads them from `Host` after `addTask`.
- `ExtendedHumanTaskWorkItemHandler.Handler.ExecuteWorkItem`: after the command is issued, the stored task and the rewritten content are the same Java map. The model snapshots the task in the `AddTask` event, so it does not capture what the tasks manager sees of that later in-place rewrite.
- `SimpleDateFormat` parsing is a foreign library. It is an opaque function parameter. Each resolver owns its parser, and the parser's internal state between calls is not modelled.
- `Date.toString()` and `HashMap.toString()` depend on the JVM time zone and on iteration order. Their texts are carried in the value.
- `StringUtils.defaultString` would apply its fallback only if `toString()` returned `null`. The model's string forms are never `null`.
- `AddTaskIff` assumes that a new `HumanTask` starts with every field `null`, as Java field defaults are; `HumanTask` is host code and not part of this model.
- The host constant for the data map parameter, `WorkflowConstants.VARIABLE_DATA`, is taken to be `mgnlData`. That is also the command's parameter-map name.
- `MagnoliaExpirationWorkflowVersionHandler` is a fixed list of host install tasks with no logic of its own here; only its task name `unpublish` is used, in `UnpublishTaskNeverChains`.
- `ExtendedHumanTaskWorkItemHandlerDefinition` is a single setter call, so it is not modelled.
