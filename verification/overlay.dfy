/** OnGUI: each call (Unity makes one per GUI event) first refreshes the
    table through the change gate and then renders whatever table the
    component now holds. */
module Overlay {
  import opened Wrappers
  import opened Members
  import opened ChangeGate
  import opened Layout

  /** One OnGUI call: the component's new state and the draws of the call (None
      when Render throws). */
  datatype GuiCall = GuiCall(next: Watcher, draws: Option<seq<Draw>>)

  function OnGui(w: Watcher, file: FileSnapshot, host: Host, screenWidth: int): (f: GuiCall)
    ensures !w.isReadingFile ==> !f.next.isReadingFile
    ensures f.draws.Some? ==> f.next.table.Some?
  {
    var next := RetrieveData(w, file, host).next;
    GuiCall(next, Render(screenWidth, next.table))
  }

  /** Once a call has shown a well-formed file, the next call over the same
      file (at the same width) keeps the state and draws exactly the same. */
  lemma UnchangedFileRedrawsSame(w: Watcher, file: FileSnapshot, host: Host, screenWidth: int)
    requires !w.isReadingFile
    requires Parses(file, host)
    ensures var first := OnGui(w, file, host, screenWidth);
            var second := OnGui(first.next, file, host, screenWidth);
            second == first
  {
  }

  /** A component without a table draws nothing and throws in Render on
      every call until some call reloads the file. */
  lemma {:induction false} NoTableNoDraws(w: Watcher, files: seq<FileSnapshot>, host: Host, screenWidth: int)
    requires w.table.None?
    requires CountPaths(w, files, host, p => p == Reloaded) == 0
    ensures Render(screenWidth, Run(w, files, host).table).None?
  {
    NoReloadNoChange(w, files, host);
  }
}
