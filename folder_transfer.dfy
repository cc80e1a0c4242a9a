/**
 * The local-to-local transfer of one folder. A cancelled transfer is
 * marked and reported at once. Otherwise the destination folder is
 * created if missing; a failure there fails the transfer, and when the
 * folder-creation tracker says the properties should not be set the
 * transfer is reported as skipped. All other outcomes end in the standard
 * download epilogue, and the tracker stops tracking the destination on
 * every path that registered the deferred call.
 *
 * The transfer manager and the tracker are represented by the trace of
 * calls made on them; what they answer (the cancellation flag, the outcome
 * of creating the folder and the should-set-properties answer) is given as
 * parameters.
 */
module FolderTransfer {

  import opened Wrappers

  datatype TransferStatus = Cancelled | SkippedEntityAlreadyExists

  datatype EntityType = File | Folder

  /** The calls made on the transfer manager, the tracker and the file system. */
  datatype Event =
    | SetStatus(status: TransferStatus)
    | ReportTransferDone
    | CreateDirectory(path: string)
    | FailActiveDownload(what: FailedStep, err: string)
    | ShouldSetProperties(path: string)
    | CommonDownloaderCompletion(entity: EntityType)
    | StopTracking(path: string)

  /** The two failure descriptions the transfer can pass: "ensuring destination folder exists" and "setting folder properties". */
  datatype FailedStep = EnsuringFolder | SettingProperties

  /** The events that end a transfer: a direct report, or the epilogue (which reports in turn). */
  predicate EndsTransfer(e: Event)
  {
    e == ReportTransferDone || e == CommonDownloaderCompletion(Folder)
  }

  /** Exactly one event of the trace ends the transfer, the one at index i. */
  ghost predicate EndsOnlyAt(trace: seq<Event>, i: int)
  {
    && 0 <= i < |trace| && EndsTransfer(trace[i])
    && forall j :: 0 <= j < |trace| && j != i ==> !EndsTransfer(trace[j])
  }

  /**
   * The folder handling of localToLocal_folder once the transfer is known
   * not to be cancelled, up to the point where the deferred StopTracking
   * runs: create the folder, then fail, skip, or run the epilogue. The
   * error check after ShouldSetProperties tests the creation error, which is
   * nil on that path, so it never fails the transfer.
   */
  method FolderSteps(destination: string, createError: Option<string>, shouldSetProps: bool)
    returns (steps: seq<Event>)
    ensures |steps| >= 2 && steps[0] == CreateDirectory(destination)
    ensures forall i :: 0 <= i < |steps| ==> !steps[i].StopTracking?
    ensures createError.Some? ==>
      && steps[1] == FailActiveDownload(EnsuringFolder, createError.value)
      && ShouldSetProperties(destination) !in steps
      && steps[|steps| - 1] == CommonDownloaderCompletion(Folder)
      && (forall i :: 0 <= i < |steps| ==> !steps[i].SetStatus? && (steps[i].FailActiveDownload? ==> i == 1))
    ensures createError.None? ==> ShouldSetProperties(destination) in steps
    ensures createError.None? && !shouldSetProps ==>
      && SetStatus(SkippedEntityAlreadyExists) in steps
      && steps[|steps| - 1] == ReportTransferDone
      && CommonDownloaderCompletion(Folder) !in steps
      && (forall i :: 0 <= i < |steps| ==>
            !steps[i].FailActiveDownload? && (steps[i].SetStatus? ==> steps[i] == SetStatus(SkippedEntityAlreadyExists)))
    ensures createError.None? && shouldSetProps ==>
      && steps[|steps| - 1] == CommonDownloaderCompletion(Folder)
      && (forall i :: 0 <= i < |steps| ==> !steps[i].SetStatus? && !steps[i].FailActiveDownload?)
    ensures forall i :: 0 <= i < |steps| ==> !(steps[i].FailActiveDownload? && steps[i].what == SettingProperties)
    ensures EndsOnlyAt(steps, |steps| - 1)
  {
    steps := [CreateDirectory(destination)];
    var err := createError;
    if err.Some? {
      steps := steps + [FailActiveDownload(EnsuringFolder, err.value)];
    } else {
      steps := steps + [ShouldSetProperties(destination)];
      if !shouldSetProps {
        steps := steps + [SetStatus(SkippedEntityAlreadyExists), ReportTransferDone];
        return;
      }
      match err {
        case Some(e) =>
          steps := steps + [FailActiveDownload(SettingProperties, e)];
        case None =>
      }
    }
    steps := steps + [CommonDownloaderCompletion(Folder)];
  }

  /**
   * localToLocal_folder. A cancelled transfer is marked Cancelled and
   * reported before the deferred StopTracking is registered; every other
   * path ends with that call, made once.
   */
  method LocalToLocalFolder(wasCanceled: bool, destination: string,
                            createError: Option<string>, shouldSetProps: bool)
    returns (trace: seq<Event>)
    ensures wasCanceled ==> trace == [SetStatus(Cancelled), ReportTransferDone]
    ensures !wasCanceled ==>
      && |trace| >= 3
      && trace[0] == CreateDirectory(destination)
      && trace[|trace| - 1] == StopTracking(destination)
      && (forall i :: 0 <= i < |trace| - 1 ==> !trace[i].StopTracking?)
    ensures !wasCanceled && createError.Some? ==>
      && trace[1] == FailActiveDownload(EnsuringFolder, createError.value)
      && ShouldSetProperties(destination) !in trace
      && CommonDownloaderCompletion(Folder) in trace
      && (forall i :: 0 <= i < |trace| ==> !trace[i].SetStatus? && (trace[i].FailActiveDownload? ==> i == 1))
    ensures !wasCanceled && createError.None? ==> ShouldSetProperties(destination) in trace
    ensures !wasCanceled && createError.None? && !shouldSetProps ==>
      && SetStatus(SkippedEntityAlreadyExists) in trace
      && CommonDownloaderCompletion(Folder) !in trace
      && (forall i :: 0 <= i < |trace| ==>
            !trace[i].FailActiveDownload? && (trace[i].SetStatus? ==> trace[i] == SetStatus(SkippedEntityAlreadyExists)))
    ensures !wasCanceled && createError.None? && shouldSetProps ==>
      && CommonDownloaderCompletion(Folder) in trace
      && (forall i :: 0 <= i < |trace| ==> !trace[i].SetStatus? && !trace[i].FailActiveDownload?)
    ensures forall i :: 0 <= i < |trace| ==> !(trace[i].FailActiveDownload? && trace[i].what == SettingProperties)
    ensures EndsOnlyAt(trace, if wasCanceled then 1 else |trace| - 2)
  {
    if wasCanceled {
      trace := [SetStatus(Cancelled), ReportTransferDone];
      return;
    }
    var deferred := StopTracking(destination);
    var steps := FolderSteps(destination, createError, shouldSetProps);
    trace := steps + [deferred];
  }
}
