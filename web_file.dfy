/** The browser's `File`, reduced to what the modelled code reads of it. */
module WebFile {

  datatype File = File(name: string, size: nat)
}
