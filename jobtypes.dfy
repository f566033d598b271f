/** The records of the job coordinator (server/server.go) and the protocol
    messages that the coordinator and the worker exchange. */
module JobTypes {
  import opened Wrappers

  newtype byte = x: int | 0 <= x < 256

  /** An image or any other blob, as Go's `[]byte`. */
  type Bytes = seq<byte>

  /** A job as the store keeps it. It does not carry its own ID: identity lives
      only in the JobKey under which it is stored. `partialResults` is the ordered
      list of checkpoint images; `result` is the one final image, `None` until one
      has been assigned (it is not Go's nil slice: an empty image completes a job
      with `Some([])`); `lastUpdated` is a clock reading. */
  datatype Job = Job(
    name: string,
    styleName: string,
    styleImage: Bytes,
    contentImage: Bytes,
    partialResults: seq<Bytes>,
    result: Option<Bytes>,
    lastUpdated: int)

  /** The key of every store map. Equality compares all three fields, so a key
      built with `completed == false` never matches an entry filed as completed. */
  datatype JobKey = JobKey(id: string, name: string, completed: bool)

  /** One job as the web view lists it. */
  datatype JobResponse = JobResponse(
    id: string,
    name: string,
    status: string,
    styleImageUrl: string,
    contentImageUrl: string,
    progressImageUrls: seq<string>,
    resultImageUrl: string)

  /** One counter per partition of the store. */
  datatype JobStats = JobStats(pending: int, inProgress: int, completed: int)

  datatype AllJobsResponse = AllJobsResponse(jobs: seq<JobResponse>, stats: JobStats)

  // ---------------------------------------------------------------------------
  // Protocol messages

  /** The protocol's image format enumeration; any other code is carried as is. */
  datatype ImageFormat = JPG | PNG | OtherFormat(code: int)

  datatype InputImage = InputImage(title: string, format: ImageFormat, image: Bytes)

  /** The job message handed to a worker. Style and content are references in the
      protocol and may be nil. */
  datatype WireJob = WireJob(id: string, name: string, style: Option<InputImage>, content: Option<InputImage>)

  /** The zero-valued job message, which the coordinator sends when nothing is pending. */
  const EmptyJob: WireJob := WireJob("", "", None, None)

  /** A freshly submitted job: no partial results and no final result yet. */
  function NewJob(name: string, styleName: string, styleImage: Bytes, contentImage: Bytes, now: int): Job
  {
    Job(name, styleName, styleImage, contentImage, [], None, now)
  }
}
