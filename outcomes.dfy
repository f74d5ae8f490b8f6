/**
 * Optional values, the errors the engine and the parser raise (each a `ValueError` with its
 * own message in the source) and results that carry one or the other.
 */
module Outcomes {

  datatype Option<T> = None | Some(value: T)

  datatype Error =
    | PrimaryKeyMissing(column: string)     // "Primary key <c> must be provided"
    | InvalidValue(column: string)          // "Invalid value for column <c>"
    | NotNullable(column: string)           // "Column <c> cannot be null"
    | DuplicateValue(column: string)        // "Duplicate value for unique column <c>"
    | ColumnNotFound(column: string)        // "Column <c> does not exist"
    | TableExists(table: string)            // "Table <t> already exists"
    | MultiplePrimaryKeys                   // "Only one primary key allowed per table"
    | TableNotFound(table: string)          // "Table <t> not found"
    | JoinTableNotFound(table: string)      // "Join table <t> not found"
    | UnsupportedQuery(query: string)       // "Unsupported SQL query: <q>"
    | InvalidSyntax(statement: string)      // "Invalid <statement> syntax"

  datatype Result<T> = Ok(value: T) | Err(error: Error)
}
