/**
 * The code lenses of an app-import manifest: for every entry, a register lens and an
 * unregister lens, both on the range of the entry's app line.
 */
module AppLenser {
  import opened Wrappers
  import opened Ranges
  import opened Lenses
  import opened AppService

  const RegisterCommand := "vscode-spring-cloud-dataflow.apps.register"
  const RegisterTitle := "Register Application"
  const UnregisterCommand := "vscode-spring-cloud-dataflow.apps.unregister"
  const UnregisterTitle := "Unregister Application"

  /** The arguments of the app commands, in the order they are passed. */
  datatype AppArguments =
    | RegisterParams(appType: string, name: string, appUri: Option<string>, metadataUri: Option<string>)
    | UnregisterParams(appType: string, name: string, version: string)

  type AppLens = CodeLens<AppArguments>

  /**
   * The lenses of one entry: register with its type, name and both uris, then unregister
   * with its type, name and version; both on the app line's range.
   */
  function EntryLenses(e: AppEntry): (r: seq<AppLens>)
    ensures |r| == 2
    ensures r[0].command == RegisterCommand && r[1].command == UnregisterCommand
    ensures r[0].range == e.appRange && r[1].range == e.appRange
    ensures r[0].argument == RegisterParams(e.appType, e.name, e.appUri, e.metadataUri)
    ensures r[1].argument == UnregisterParams(e.appType, e.name, e.version)
  {
    [ CodeLens(e.appRange, RegisterCommand, RegisterTitle, RegisterParams(e.appType, e.name, e.appUri, e.metadataUri)),
      CodeLens(e.appRange, UnregisterCommand, UnregisterTitle, UnregisterParams(e.appType, e.name, e.version)) ]
  }

  /** The lenses of the entries, two per entry, entry after entry. */
  function LensesOf(entries: seq<AppEntry>): (r: seq<AppLens>)
    ensures |r| == 2 * |entries|
    ensures forall i :: 0 <= i < |entries| ==> r[2 * i] == EntryLenses(entries[i])[0] && r[2 * i + 1] == EntryLenses(entries[i])[1]
  {
    seq(2 * |entries|, i requires 0 <= i < 2 * |entries| => EntryLenses(entries[i / 2])[i % 2])
  }

  /**
   * lense of a manifest: two lenses for every entry, taking the entries in the map's
   * iteration order `order`.
   */
  function Lense(doc: seq<string>, versionOf: VersionOf, order: seq<string>): (r: seq<AppLens>)
    requires IterationOrder(Apps(doc, versionOf), order)
    ensures |r| == 2 * |order|
    ensures forall i :: 0 <= i < |order| ==>
      r[2 * i] == EntryLenses(Apps(doc, versionOf)[order[i]])[0] && r[2 * i + 1] == EntryLenses(Apps(doc, versionOf)[order[i]])[1]
    ensures |r| == 2 * |Apps(doc, versionOf)|
  {
    IterationOrderLength(Apps(doc, versionOf), order);
    LensesOf(Values(Apps(doc, versionOf), order))
  }
}
