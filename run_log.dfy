/**
 * The record of one scraping run. Its status starts as running and is
 * overwritten by the two terminal transitions and by the stop sweep of the
 * web interface; none of them looks at the status it replaces. Times are
 * passed in as integers because the clock is not modelled.
 */
module RunLog {
  import opened Wrappers

  /**
   * The declared choices are running, completed and error; the stop sweep
   * also writes "stopped", so the model's status type includes it.
   */
  datatype Status = Running | Completed | Error | Stopped

  class ParserLog {
    var url: string
    var carsParsed: int
    var imagesParsed: int
    var status: Status
    var errorMessage: Option<string>
    var createdAt: int
    var finishedAt: Option<int>

    /** A new log: running, nothing counted, no error and no finishing time. */
    constructor (url: string, now: int)
      ensures this.url == url && createdAt == now
      ensures status == Running && carsParsed == 0 && imagesParsed == 0
      ensures errorMessage == None && finishedAt == None
    {
      this.url := url;
      carsParsed := 0;
      imagesParsed := 0;
      status := Running;
      errorMessage := None;
      createdAt := now;
      finishedAt := None;
    }

    /** Whatever the current status, the run becomes completed with the given counts. */
    method MarkCompleted(carsCount: int, imagesCount: int, now: int)
      modifies this
      ensures status == Completed && carsParsed == carsCount && imagesParsed == imagesCount
      ensures finishedAt == Some(now)
      ensures url == old(url) && createdAt == old(createdAt) && errorMessage == old(errorMessage)
    {
      status := Completed;
      carsParsed := carsCount;
      imagesParsed := imagesCount;
      finishedAt := Some(now);
    }

    /** Whatever the current status, the run becomes failed; the counters are kept. */
    method MarkError(message: string, now: int)
      modifies this
      ensures status == Error && errorMessage == Some(message) && finishedAt == Some(now)
      ensures url == old(url) && createdAt == old(createdAt)
      ensures carsParsed == old(carsParsed) && imagesParsed == old(imagesParsed)
    {
      status := Error;
      errorMessage := Some(message);
      finishedAt := Some(now);
    }
  }
}
