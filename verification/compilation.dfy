/** What the assembler makes of one line (VASM/CompilationResult.cs): its
    bytes and, for a reference to a section, the label and the position in
    those bytes where the section's address must be written. */
module Compilation {
  import opened Results
  import opened Bytes

  datatype Relocation = Relocation(target: string, offset: int)

  datatype CompilationResult = CompilationResult(bytecode: seq<byte>, labelToResolve: Option<Relocation>)

  /** The one-argument constructor: nothing to resolve. */
  function Plain(bytecode: seq<byte>): CompilationResult {
    CompilationResult(bytecode, None)
  }

  /** The three-argument constructor. */
  function WithLabel(bytecode: seq<byte>, target: string, offset: int): CompilationResult {
    CompilationResult(bytecode, Some(Relocation(target, offset)))
  }
}
