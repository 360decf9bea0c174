/**
 * The exceptions of the employee service, as values.  Each business rule that
 * can reject an input has its own Violation, so that a model of a check that
 * runs several rules in order says which one fires first.
 */
module Errors {

  datatype Violation =
    // Employee setters (the messages of BusinessValidationException)
    | IdNegative
    | FirstNameRequired
    | FirstNameLength
    | LastNameRequired
    | LastNameLength
    | DateOfBirthRequired
    | TooYoung
    | SalaryNegative
    | SalaryTooHigh
    | JoinDateRequired
    | JoinDateInFuture
    | TooYoungAtJoin
    | DepartmentRequired
    | InvalidDateFormat
    | InvalidSalaryFormat
    // EmployeeService checks
    | EmployeeNull
    | InvalidEmployeeId
    | DuplicateId
    | SearchTermTooShort
    | DepartmentEmpty
    | MinSalaryNegative
    | MaxSalaryNegative
    | MinSalaryExceedsMax
    // EmployeeFileRepository argument checks (IllegalArgumentException)
    | NameEmpty
    | FromSalaryNegative
    | ToSalaryNegative
    | FromSalaryExceedsTo

  datatype ConfigProblem =
    | InvalidFilePath
    | InvalidResolvedFilePath
    | MaxPoolSizeNotPositive
    | CorePoolSizeNotPositive
    | QueueCapacityNegative
    | CachingFlagNull
    | ThreadNamePrefixEmpty
    | MaxBelowCore
    | CoreAboveMax

  datatype Error =
    | BusinessValidation(violation: Violation)   // BusinessValidationException
    | IllegalArgument(violation: Violation)      // IllegalArgumentException (repository)
    | EmployeeNotFound(id: int)                  // EmployeeNotFoundException (repository)
    | NotFound(id: int)                          // NotFoundException (service)
    | Configuration(problem: ConfigProblem)      // ApplicationProperties.ConfigurationException
    | NullPointer                                // an unchecked NullPointerException
    | UnsupportedOperation                       // an unchecked UnsupportedOperationException
}
