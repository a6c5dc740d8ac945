/** The commands of a CMake file, as the lexer hands them on. */
module CMakeCommands {
  import opened Options

  /** An argument, the line it starts on, and the comment after it on that line. */
  datatype Arg = Arg(value: string, line: nat, comment: Option<string>)

  datatype Command = Command(name: string, args: seq<Arg>, line: nat)
}
