/**
 * The errors the services throw. Every service method catches what went
 * wrong and rethrows it with a prefix naming the operation, so a failure is
 * an operation context plus the underlying reason.
 */
module Failures {

  datatype Reason =
    | UserNotFound          // "User not found"
    | UserExists            // "User already exists with this email"
    | InvalidCredentials    // "Invalid credentials"
    | StoreRejected         // the document store refused the request (schema minimum, negative skip, bad limit)

  datatype Context =
    | RecordingScore | FetchingStats | FetchingHistory | FetchingLeaderboard
    | FetchingRank | FetchingLeaderboardStats
    | CreatingUser | FetchingUser | FetchingUsers | UpdatingUser | DeletingUser
    | Authenticating

  datatype Error = Error(context: Context, reason: Reason)

  function ContextPrefix(c: Context): string {
    match c
    case RecordingScore => "Error recording game score"
    case FetchingStats => "Error fetching user stats"
    case FetchingHistory => "Error fetching game history"
    case FetchingLeaderboard => "Error fetching leaderboard"
    case FetchingRank => "Error fetching user rank"
    case FetchingLeaderboardStats => "Error fetching leaderboard stats"
    case CreatingUser => "Error creating user"
    case FetchingUser => "Error fetching user"
    case FetchingUsers => "Error fetching users"
    case UpdatingUser => "Error updating user"
    case DeletingUser => "Error deleting user"
    case Authenticating => "Authentication failed"
  }

  function ReasonText(r: Reason): string {
    match r
    case UserNotFound => "User not found"
    case UserExists => "User already exists with this email"
    case InvalidCredentials => "Invalid credentials"
    case StoreRejected => "Store rejected the request"
  }

  /** The message a caller sees: the operation prefix, a colon, then the reason. */
  function Message(f: Error): string {
    ContextPrefix(f.context) + ": " + ReasonText(f.reason)
  }
}
