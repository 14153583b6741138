/** Background task dispatch. A `.delay(...)` call only enqueues a message for
    a worker, so the broker is modelled as the list of messages sent so far. */
module Dispatch {
  datatype TaskKind = DownloadTask | TranscriptionTask

  /** `download_video_task.delay(id, source)` or
      `transcribe_audio_task.delay(id, source)`. */
  datatype TaskCall = TaskCall(task: TaskKind, videoId: string, source: string)

  class Broker {
    var sent: seq<TaskCall>

    constructor ()
      ensures sent == []
    {
      sent := [];
    }

    /** Enqueues one message; nothing already sent changes. */
    method Send(task: TaskKind, videoId: string, source: string)
      modifies this
      ensures sent == old(sent) + [TaskCall(task, videoId, source)]
    {
      sent := sent + [TaskCall(task, videoId, source)];
    }
  }
}
