/**
  The Task record and its JSON form.

  Stored text is abstract: Json(t) is the text json.Marshal writes for t, and
  Garbage(text) is any text that does not decode as a Task. Two tasks with
  equal fields therefore have the same stored text.
 */
module Tasks {
  import opened Errors
  import opened GoTime

  datatype Task = Task(payload: string, retryCount: int, createdAt: Time)

  datatype Blob = Json(task: Task) | Garbage(text: string)

  /** The zero value of Task, as `var task queue.Task` declares it. */
  const ZeroTask := Task("", 0, ZeroTime)

  /** json.Marshal: fails only for a CreatedAt whose year is outside 0..9999. */
  function Marshal(t: Task): (r: Result<Blob>)
    ensures r.Ok? <==> JsonTime(t.createdAt)
    ensures r.Err? ==> r.error == MarshalError
  {
    if JsonTime(t.createdAt) then Ok(Json(t)) else Err(MarshalError)
  }

  /** json.Unmarshal into a Task. */
  function Unmarshal(b: Blob): (r: Result<Task>)
    ensures r.Ok? ==> JsonTime(r.value.createdAt)
    ensures r.Err? ==> r.error == UnmarshalError
  {
    match b
    case Json(t) => if JsonTime(t.createdAt) then Ok(t) else Err(UnmarshalError)
    case Garbage(_) => Err(UnmarshalError)
  }

  /** Unmarshal undoes Marshal. */
  lemma UnmarshalMarshal(t: Task)
    requires Marshal(t).Ok?
    ensures Unmarshal(Marshal(t).value) == Ok(t)
  {
  }

  /** Marshal undoes Unmarshal: the stored text is the canonical text of its task. */
  lemma MarshalUnmarshal(b: Blob)
    requires Unmarshal(b).Ok?
    ensures Marshal(Unmarshal(b).value) == Ok(b)
  {
  }

  /** `_ = json.Unmarshal(member, &task)`: the decoded task, or the zero Task when decoding fails. */
  function UnmarshalOrZero(b: Blob): (t: Task)
    ensures Unmarshal(b).Ok? ==> t == Unmarshal(b).value
    ensures Unmarshal(b).Err? ==> t == ZeroTask
  {
    match Unmarshal(b)
    case Ok(t) => t
    case Err(_) => ZeroTask
  }
}
