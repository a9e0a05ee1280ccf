/** The stack finder's record of one stack file (internal/stack-finder/finder.go). */
module StackFinder {
  /** stackfinder.StackMetadata: the stack's metadata.name and metadata.labels, and the file it came from. */
  datatype StackMetadata = StackMetadata(name: string, labels: map<string, string>, filePath: string)
}
