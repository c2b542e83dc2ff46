/** `ProjectFileChangeWatcher`: the set of project files waiting to be
    processed, filled by file-system events and drained when the delay
    timer fires. The timer, the `FileSystemWatcher` and the lock are not
    modelled: the two handlers run as sequential operations, and reading
    and writing files are parameters. */
module Watcher {
  import opened Wrappers
  import opened XmlTree
  import opened Modifier
  import opened Processor

  /** The change kinds the watcher subscribes to. */
  datatype WatcherChangeType = Created | Deleted | Changed

  /** One file-system notification: what happened, and the file name
      relative to the watched directory. */
  datatype FileSystemEvent = FileSystemEvent(changeType: WatcherChangeType, name: string)

  /** The pending set after one event (ProjectFileChangeWatcher.cs:101-111):
      a delete removes the name, any other change adds it; the other names
      stay as they were. */
  function AfterEvent(files: set<string>, event: FileSystemEvent): (result: set<string>)
    ensures event.name in result <==> event.changeType != Deleted
    ensures forall name :: name != event.name ==> (name in result <==> name in files)
  {
    if event.changeType != Deleted then files + {event.name} else files - {event.name}
  }

  /** The pending set after a sequence of events, in order. */
  function AfterEvents(files: set<string>, events: seq<FileSystemEvent>): set<string>
  {
    if events == [] then files else AfterEvent(AfterEvents(files, events[..|events| - 1]), events[|events| - 1])
  }

  /** The kind of the last event that names `name`, if any does. */
  function LastChangeFor(events: seq<FileSystemEvent>, name: string): Option<WatcherChangeType>
  {
    if events == [] then None
    else if events[|events| - 1].name == name then Some(events[|events| - 1].changeType)
    else LastChangeFor(events[..|events| - 1], name)
  }

  /** The last event for a name decides whether it is pending; a name no
      event mentions keeps its membership. */
  lemma {:induction false} LastEventDecides(files: set<string>, events: seq<FileSystemEvent>, name: string)
    ensures name in AfterEvents(files, events) <==>
      match LastChangeFor(events, name)
      case None => name in files
      case Some(changeType) => changeType != Deleted
  {
    if events != [] {
      LastEventDecides(files, events[..|events| - 1], name);
    }
  }

  /** Events about other names do not change whether `name` is pending. */
  lemma {:induction false} OtherNamesAreUnchanged(files: set<string>, events: seq<FileSystemEvent>, name: string)
    requires forall i :: 0 <= i < |events| ==> events[i].name != name
    ensures name in AfterEvents(files, events) <==> name in files
  {
    if events != [] {
      OtherNamesAreUnchanged(files, events[..|events| - 1], name);
    }
  }

  /** A change followed by a delete leaves the name out, whatever came before. */
  lemma ChangeThenDeleteRemoves(files: set<string>, events: seq<FileSystemEvent>, changeType: WatcherChangeType,
                                name: string)
    ensures name !in AfterEvents(files, events + [FileSystemEvent(changeType, name), FileSystemEvent(Deleted, name)])
  {
    var all := events + [FileSystemEvent(changeType, name), FileSystemEvent(Deleted, name)];
    assert all[..|all| - 1] == events + [FileSystemEvent(changeType, name)];
  }

  /** A delete followed by a creation or change leaves the name in. */
  lemma DeleteThenChangeKeeps(files: set<string>, events: seq<FileSystemEvent>, changeType: WatcherChangeType,
                              name: string)
    requires changeType != Deleted
    ensures name in AfterEvents(files, events + [FileSystemEvent(Deleted, name), FileSystemEvent(changeType, name)])
  {
    var all := events + [FileSystemEvent(Deleted, name), FileSystemEvent(changeType, name)];
    assert all[..|all| - 1] == events + [FileSystemEvent(Deleted, name)];
  }

  /** The set compares names ordinally: repeating an event changes nothing,
      so a name is pending at most once however many events it gets. */
  lemma RepeatedEventIsIdempotent(files: set<string>, event: FileSystemEvent)
    ensures AfterEvent(AfterEvent(files, event), event) == AfterEvent(files, event)
  {
  }

  /** Events about different names can arrive in either order. */
  lemma EventsOnDifferentNamesCommute(files: set<string>, first: FileSystemEvent, second: FileSystemEvent)
    requires first.name != second.name
    ensures AfterEvent(AfterEvent(files, first), second) == AfterEvent(AfterEvent(files, second), first)
  {
  }

  /** What happened to one drained file (ProjectFileChangeWatcher.cs:73-93). */
  datatype FileOutcome =
    | NotModified
    | Written(document: Document)
    | LoggedError(message: string)

  /** Whether the drained `file` is written back: it could be read, the
      processor reports it modified, and writing it does not fail. */
  predicate IsWrittenBack(file: string, projectDirectory: string, platformSeparator: char,
                          readAllText: string -> Result<string>, parse: string -> Result<Document>,
                          writeFails: string -> Option<string>)
  {
    var absoluteFilePath := PathCombine(projectDirectory, file, platformSeparator);
    && readAllText(absoluteFilePath).Success?
    && ProcessingOutcome(parse(readAllText(absoluteFilePath).value)) == SuccessfullyProcessed
    && writeFails(absoluteFilePath).None?
  }

  /** Whether processing the drained `file` ends in a logged error: reading
      it fails, or it is modified and writing it fails. */
  predicate IsLoggedError(file: string, projectDirectory: string, platformSeparator: char,
                          readAllText: string -> Result<string>, parse: string -> Result<Document>,
                          writeFails: string -> Option<string>)
  {
    var absoluteFilePath := PathCombine(projectDirectory, file, platformSeparator);
    || readAllText(absoluteFilePath).Failure?
    || (&& ProcessingOutcome(parse(readAllText(absoluteFilePath).value)) == SuccessfullyProcessed
        && writeFails(absoluteFilePath).Some?)
  }

  /** The document written back for the drained `file` is the processing
      of what its text parses to, whenever that document has no shared
      objects. */
  ghost predicate IsWrittenDocument(file: string, document: Document, projectDirectory: string, platformSeparator: char,
                                    settings: Settings, readAllText: string -> Result<string>,
                                    parse: string -> Result<Document>, assemblyDefinitionFilePath: string -> string,
                                    styleCopFileExists: string -> bool)
  {
    var absoluteFilePath := PathCombine(projectDirectory, file, platformSeparator);
    && readAllText(absoluteFilePath).Success?
    && var parsed := parse(readAllText(absoluteFilePath).value);
    && parsed.Success?
    && (Unique(parsed.value.root.nodes) ==>
          IsProcessingOf(absoluteFilePath, parsed.value, document, settings, projectDirectory, platformSeparator,
                         assemblyDefinitionFilePath, styleCopFileExists))
  }

  /** The log line for a file that failed (ProjectFileChangeWatcher.cs:92). */
  function ErrorMessage(file: string, exceptionMessage: string): string {
    "Failed to cleanup C# project file " + file + " with error '" + exceptionMessage + "'"
  }

  /** The drain-and-process loop of `OnTimerElapsed`
      (ProjectFileChangeWatcher.cs:71-94): every drained name is resolved
      against the project directory, read, processed and, when the
      processor reports it modified, written back; a failing read or write
      is logged and the loop goes on with the other names. The outcome of
      each name depends only on that name, not on the order of the set. */
  method ProcessFiles(filesToProcess: set<string>, projectDirectory: string, platformSeparator: char,
                      settings: Settings, readAllText: string -> Result<string>, parse: string -> Result<Document>,
                      writeFails: string -> Option<string>, assemblyDefinitionFilePath: string -> string,
                      styleCopFileExists: string -> bool)
    returns (outcomes: map<string, FileOutcome>)
    ensures outcomes.Keys == filesToProcess
    ensures forall file :: file in outcomes ==>
      (outcomes[file].Written? <==>
       IsWrittenBack(file, projectDirectory, platformSeparator, readAllText, parse, writeFails))
    ensures forall file :: file in outcomes ==>
      (outcomes[file].LoggedError? <==>
       IsLoggedError(file, projectDirectory, platformSeparator, readAllText, parse, writeFails))
    ensures forall file :: file in outcomes && outcomes[file].Written? ==> IsProcessedDocument(outcomes[file].document)
    ensures forall file :: file in outcomes && outcomes[file].Written? ==>
      IsWrittenDocument(file, outcomes[file].document, projectDirectory, platformSeparator, settings, readAllText, parse,
                        assemblyDefinitionFilePath, styleCopFileExists)
  {
    outcomes := map[];
    var remaining := filesToProcess;
    while remaining != {}
      invariant remaining <= filesToProcess
      invariant outcomes.Keys == filesToProcess - remaining
      invariant forall file :: file in outcomes ==>
        (outcomes[file].Written? <==>
         IsWrittenBack(file, projectDirectory, platformSeparator, readAllText, parse, writeFails))
      invariant forall file :: file in outcomes ==>
        (outcomes[file].LoggedError? <==>
         IsLoggedError(file, projectDirectory, platformSeparator, readAllText, parse, writeFails))
      invariant forall file :: file in outcomes && outcomes[file].Written? ==> IsProcessedDocument(outcomes[file].document)
      invariant forall file :: file in outcomes && outcomes[file].Written? ==>
        IsWrittenDocument(file, outcomes[file].document, projectDirectory, platformSeparator, settings, readAllText,
                          parse, assemblyDefinitionFilePath, styleCopFileExists)
      decreases remaining
    {
      var file :| file in remaining;
      remaining := remaining - {file};
      var outcome := ProcessFile(file, projectDirectory, platformSeparator, settings, readAllText, parse, writeFails,
                                 assemblyDefinitionFilePath, styleCopFileExists);
      outcomes := outcomes[file := outcome];
    }
  }

  /** One iteration of the loop of `OnTimerElapsed`
      (ProjectFileChangeWatcher.cs:73-93). */
  method ProcessFile(file: string, projectDirectory: string, platformSeparator: char, settings: Settings,
                     readAllText: string -> Result<string>, parse: string -> Result<Document>,
                     writeFails: string -> Option<string>, assemblyDefinitionFilePath: string -> string,
                     styleCopFileExists: string -> bool)
    returns (outcome: FileOutcome)
    ensures outcome.Written? <==> IsWrittenBack(file, projectDirectory, platformSeparator, readAllText, parse, writeFails)
    ensures outcome.LoggedError? <==> IsLoggedError(file, projectDirectory, platformSeparator, readAllText, parse, writeFails)
    ensures outcome.Written? ==> IsProcessedDocument(outcome.document)
    ensures outcome.Written? ==>
      IsWrittenDocument(file, outcome.document, projectDirectory, platformSeparator, settings, readAllText, parse,
                        assemblyDefinitionFilePath, styleCopFileExists)
  {
    var absoluteFilePath := PathCombine(projectDirectory, file, platformSeparator);
    var fileContent := readAllText(absoluteFilePath);
    if fileContent.Failure? {
      return LoggedError(ErrorMessage(file, fileContent.error));
    }
    var modified, modifiedContent, report, reportPrinted, injection :=
      ProcessProjectFile(absoluteFilePath, fileContent.value, parse(fileContent.value), settings,
                         projectDirectory, platformSeparator, assemblyDefinitionFilePath, styleCopFileExists);
    if !modified {
      return NotModified;
    }
    var writeError := writeFails(absoluteFilePath);
    if writeError.Some? {
      return LoggedError(ErrorMessage(file, writeError.value));
    }
    return Written(modifiedContent.document);
  }

  /** The watcher's state: the names waiting for the timer. */
  class ProjectFileChangeWatcher {
    var filesToProcess: set<string>
    /** The events received since the last drain. */
    ghost var pendingEvents: seq<FileSystemEvent>

    /** The pending set is what the events since the last drain made of the
        empty set. */
    ghost predicate Valid()
      reads this
    {
      filesToProcess == AfterEvents({}, pendingEvents)
    }

    /** The constructor (ProjectFileChangeWatcher.cs:32-58): nothing is
        pending. */
    constructor()
      ensures Valid() && filesToProcess == {} && pendingEvents == []
    {
      filesToProcess := {};
      pendingEvents := [];
    }

    /** `OnFileChanged` (ProjectFileChangeWatcher.cs:97-114). */
    method OnFileChanged(arguments: FileSystemEvent)
      requires Valid()
      modifies this
      ensures Valid()
      ensures filesToProcess == AfterEvent(old(filesToProcess), arguments)
      ensures pendingEvents == old(pendingEvents) + [arguments]
    {
      if arguments.changeType != Deleted {
        filesToProcess := filesToProcess + {arguments.name};
      } else {
        filesToProcess := filesToProcess - {arguments.name};
      }
      pendingEvents := pendingEvents + [arguments];
    }

    /** The drain of `OnTimerElapsed` (ProjectFileChangeWatcher.cs:64-69):
        the pending set is handed over and replaced by an empty one. */
    method TakeFilesToProcess() returns (filesToProcessCopy: set<string>)
      requires Valid()
      modifies this
      ensures Valid() && filesToProcess == {} && pendingEvents == []
      ensures filesToProcessCopy == old(filesToProcess)
      ensures filesToProcessCopy == AfterEvents({}, old(pendingEvents))
    {
      filesToProcessCopy := filesToProcess;
      filesToProcess := {};
      pendingEvents := [];
    }

    /** `OnTimerElapsed` (ProjectFileChangeWatcher.cs:60-95): drain, then
        process every drained name once. */
    method OnTimerElapsed(projectDirectory: string, platformSeparator: char, settings: Settings,
                          readAllText: string -> Result<string>, parse: string -> Result<Document>,
                          writeFails: string -> Option<string>, assemblyDefinitionFilePath: string -> string,
                          styleCopFileExists: string -> bool)
      returns (outcomes: map<string, FileOutcome>)
      requires Valid()
      modifies this
      ensures Valid() && filesToProcess == {} && pendingEvents == []
      ensures outcomes.Keys == old(filesToProcess)
      ensures forall file :: file in outcomes ==>
        (outcomes[file].Written? <==>
         IsWrittenBack(file, projectDirectory, platformSeparator, readAllText, parse, writeFails))
      ensures forall file :: file in outcomes ==>
        (outcomes[file].LoggedError? <==>
         IsLoggedError(file, projectDirectory, platformSeparator, readAllText, parse, writeFails))
      ensures forall file :: file in outcomes && outcomes[file].Written? ==> IsProcessedDocument(outcomes[file].document)
      ensures forall file :: file in outcomes && outcomes[file].Written? ==>
        IsWrittenDocument(file, outcomes[file].document, projectDirectory, platformSeparator, settings, readAllText,
                          parse, assemblyDefinitionFilePath, styleCopFileExists)
    {
      var filesToProcessCopy := TakeFilesToProcess();
      outcomes := ProcessFiles(filesToProcessCopy, projectDirectory, platformSeparator, settings, readAllText, parse,
                               writeFails, assemblyDefinitionFilePath, styleCopFileExists);
    }
  }
}
