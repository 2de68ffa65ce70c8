/** `macho_core::Error`, as far as the modelled code raises it. */
module MachoError {
  import opened Words

  datatype Error =
    | Truncated(what: string)
    | InvalidLoadCommand
    | VaddrNotMapped(vaddr: u64)
}
