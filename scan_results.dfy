/** The values exchanged between the scan thread and the window. */
module ScanResults {

  datatype Option<+T> = None | Some(value: T)

  /** One `result` signal of the scan thread: the digest of a file (absent when
      the file could not be read) and the file's path. */
  datatype ScanResult = ScanResult(hash: Option<string>, path: string)

  /** Python truthiness of the digest argument of `process_scan_result`:
      both an absent digest and the empty string are false. */
  predicate Truthy(h: Option<string>)
  {
    h.Some? && h.value != ""
  }
}
