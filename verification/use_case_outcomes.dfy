/** What the application use cases return. A use case that may write returns
    the store as it stands after the call together with its result; one that
    only reads takes the store and returns its result alone. */
module UseCaseOutcomes {
  import opened Wrappers
  import opened DomainExceptions
  import opened InMemoryStudentRepository

  /** A domain error passed through unchanged, or the plain "student with
      ID … not found" error raised when a lookup misses. */
  datatype UseCaseError = StudentNotFound(studentId: string) | Domain(error: DomainError)

  datatype Execution<R> = Execution(store: Store, result: Result<R, UseCaseError>)
}
