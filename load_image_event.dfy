/** LoadImageEvent: the progress report the grid builder publishes while it copies samples. */
module LoadImageEvents {
  import opened Outcomes

  /** The only progress values an event may carry. */
  type Progress = p: int | 0 <= p <= 100

  /** The event bus's priority enumeration; only NORMAL is used here, the others are outside this model. */
  datatype ExecutionPriority = Normal | OtherPriority(name: string)

  datatype LoadImageEvent = LoadImageEvent(progress: Progress)

  /** The constructor: it rejects a progress below 0 or above 100 and stores any other value. */
  function NewLoadImageEvent(progress: int): (r: Result<LoadImageEvent>)
    ensures r.Success? <==> 0 <= progress <= 100
    ensures r.Failure? ==> r.error == IllegalArgument
    ensures r.Success? ==> GetProgress(r.value) == progress
  {
    if progress < 0 || progress > 100 then Failure(IllegalArgument)
    else Success(LoadImageEvent(progress))
  }

  function GetProgress(e: LoadImageEvent): (p: int)
    ensures 0 <= p <= 100
  {
    e.progress
  }

  function GetExecutionOrder(e: LoadImageEvent): (p: ExecutionPriority)
    ensures p == Normal
  {
    Normal
  }

  /** No load event ever makes another event redundant. */
  function IsRedundant<E>(e: LoadImageEvent, that: E): (r: bool)
    ensures !r
  {
    false
  }
}

/** The part of the event service the core talks to: what was published, in order. */
module EventBus {
  import opened LoadImageEvents

  datatype Event =
    | LoadImage(load: LoadImageEvent)
    | SelectionChanged      // SelectionChgEvent
    | ImgRedraw             // ImgRedrawEvent
    | ScreenshotTaken       // ScreenshotTakenEvent

  class EventService {
    var published: seq<Event>

    constructor ()
      ensures published == []
    {
      published := [];
    }

    method Publish(e: Event)
      modifies this
      ensures published == old(published) + [e]
    {
      published := published + [e];
    }
  }
}
