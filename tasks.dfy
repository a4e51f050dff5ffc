/** The host platform's work item and human task, reduced to what the workflow code reads and writes. */
module Tasks {
  import opened Values

  /** Work item parameter naming the task definition (and the task). */
  const TaskName := "TaskName"
  /** Work item parameter holding the publication dialog's data map. */
  const VariableData := "mgnlData"
  /** Work item parameter naming the actor of the swimlane. */
  const SwimlaneActorId := "SwimlaneActorId"

  /** A jBPM work item: its parameters by name. */
  datatype WorkItem = WorkItem(parameters: Content)

  /** workItem.getParameter(key). */
  function Parameter(w: WorkItem, key: string): Option<Value>
  {
    Get(w.parameters, key)
  }

  /** The fields of a human task, as a value. */
  datatype TaskView = TaskView(
    name: Option<string>,
    actorIds: Option<seq<string>>,
    groupIds: Option<seq<string>>,
    comment: Option<string>,
    requestor: Option<string>,
    content: Option<Content>,
    id: Option<string>,
    path: Option<string>)

  /** A freshly constructed task: every field still null. */
  const Blank := TaskView(None, None, None, None, None, None, None, None)

  /** A human task object, whose setters the resolver and the handler call. */
  class HumanTask {
    var name: Option<string>
    var actorIds: Option<seq<string>>
    var groupIds: Option<seq<string>>
    var comment: Option<string>
    var requestor: Option<string>
    var content: Option<Content>
    var id: Option<string>
    var path: Option<string>

    /** The task's current fields. */
    function View(): TaskView
      reads this
    {
      TaskView(name, actorIds, groupIds, comment, requestor, content, id, path)
    }

    constructor ()
      ensures View() == Blank
    {
      name, actorIds, groupIds := None, None, None;
      comment, requestor, content := None, None, None;
      id, path := None, None;
    }
  }
}
