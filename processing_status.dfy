/** The state space of a video: one status per pipeline stage. Each status is a
    string enumeration in the source, so a status equals its lower-case value
    and the store holds that string. */
module Status {
  import opened Wrappers

  /** Where the download of a video stands. */
  datatype DownloadStatus = Pending | Downloaded | Failed | InProgress {
    function Value(): (r: string)
      ensures r in DownloadValues
    {
      match this
      case Pending => "pending"
      case Downloaded => "downloaded"
      case Failed => "failed"
      case InProgress => "in_progress"
    }
  }

  const DownloadValues: set<string> := {"pending", "downloaded", "failed", "in_progress"}

  /** `DownloadStatus(s)`: the member whose value is `s`, if any. */
  function ParseDownloadStatus(s: string): (r: Option<DownloadStatus>)
    ensures r.Some? <==> s in DownloadValues
    ensures r.Some? ==> r.value.Value() == s
  {
    if s == "pending" then Some(DownloadStatus.Pending)
    else if s == "downloaded" then Some(DownloadStatus.Downloaded)
    else if s == "failed" then Some(DownloadStatus.Failed)
    else if s == "in_progress" then Some(DownloadStatus.InProgress)
    else None
  }

  /** Where the transcription of a video stands. */
  datatype TranscriptionStatus = Pending | Completed | Failed | InProgress {
    function Value(): (r: string)
      ensures r in TranscriptionValues
    {
      match this
      case Pending => "pending"
      case Completed => "completed"
      case Failed => "failed"
      case InProgress => "in_progress"
    }
  }

  const TranscriptionValues: set<string> := {"pending", "completed", "failed", "in_progress"}

  function ParseTranscriptionStatus(s: string): (r: Option<TranscriptionStatus>)
    ensures r.Some? <==> s in TranscriptionValues
    ensures r.Some? ==> r.value.Value() == s
  {
    if s == "pending" then Some(TranscriptionStatus.Pending)
    else if s == "completed" then Some(TranscriptionStatus.Completed)
    else if s == "failed" then Some(TranscriptionStatus.Failed)
    else if s == "in_progress" then Some(TranscriptionStatus.InProgress)
    else None
  }

  /** Where the audio extraction of a video stands. The enumeration is used by
      the worker tasks but has no definition in the status module; its members
      are the four values those tasks and the store default use. */
  datatype AudioStatus = Pending | Extracting | Extracted | Failed {
    function Value(): (r: string)
      ensures r in AudioValues
    {
      match this
      case Pending => "pending"
      case Extracting => "extracting"
      case Extracted => "extracted"
      case Failed => "failed"
    }
  }

  const AudioValues: set<string> := {"pending", "extracting", "extracted", "failed"}

  function ParseAudioStatus(s: string): (r: Option<AudioStatus>)
    ensures r.Some? <==> s in AudioValues
    ensures r.Some? ==> r.value.Value() == s
  {
    if s == "pending" then Some(AudioStatus.Pending)
    else if s == "extracting" then Some(AudioStatus.Extracting)
    else if s == "extracted" then Some(AudioStatus.Extracted)
    else if s == "failed" then Some(AudioStatus.Failed)
    else None
  }

  /** Each status has its own value, and parsing a value gives its status back. */
  lemma ValuesIdentifyMembers()
    ensures forall a: DownloadStatus, b: DownloadStatus :: a.Value() == b.Value() ==> a == b
    ensures forall a: DownloadStatus :: ParseDownloadStatus(a.Value()) == Some(a)
    ensures forall a: TranscriptionStatus, b: TranscriptionStatus :: a.Value() == b.Value() ==> a == b
    ensures forall a: TranscriptionStatus :: ParseTranscriptionStatus(a.Value()) == Some(a)
    ensures forall a: AudioStatus, b: AudioStatus :: a.Value() == b.Value() ==> a == b
    ensures forall a: AudioStatus :: ParseAudioStatus(a.Value()) == Some(a)
  {
  }

  /** The statuses of one video; both start out pending. */
  datatype ProcessingStatus = ProcessingStatus(
    download: DownloadStatus := DownloadStatus.Pending,
    transcription: TranscriptionStatus := TranscriptionStatus.Pending)

  lemma DefaultIsPending()
    ensures ProcessingStatus().download.Value() == "pending"
    ensures ProcessingStatus().transcription.Value() == "pending"
  {
  }
}
