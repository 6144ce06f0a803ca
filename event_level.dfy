/** The `EventLevel` enumeration (Souce/Diagnostics/EventLevel.cs), in
    declaration order. */
module EventLevels {

  datatype EventLevel = Debug | Information | Warning | Error | Fault
}
