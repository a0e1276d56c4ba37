/** The rows of the database tables and the per-user settings. */
module Records {
  datatype Status = Pending | Sent | Failed

  /** The rules that can hold a message back, in the order they are checked. */
  datatype HoldRule =
    | UserThrottle | DomainThrottle
    | PerSecond | PerMinute | PerHour | PerDay | DomainPerHour

  /** The error and reason texts, by what they say. */
  datatype Note =
    | NoNote
    | HeldBy(rule: HoldRule)
    | CheckFailure
    | DeliveryFailure
    | InvalidRecipient
    | InsertFailure

  /** A row of outbound_queue.  Times are seconds. */
  datatype Item = Item(id: nat, user: int, mailFrom: string, rcptTo: string, data: string,
                       status: Status, attempts: nat, nextAttempt: int, lastError: Note,
                       createdAt: int, updatedAt: int)

  datatype EventStatus = QueuedEvent | SentEvent | FailedEvent | RejectedEvent

  /** A row of mail_events. */
  datatype Event = Event(user: int, mailFrom: string, rcptTo: string, domain: string,
                         status: EventStatus, reason: Note, createdAt: int)

  datatype User = User(rotationOn: bool, limitPerSec: int, limitPerMin: int, limitPerHour: int,
                       limitPerDay: int, throttleMS: int)

  datatype DomainRule = DomainRule(limitPerHour: int, throttleMS: int)

  /** The users and domain_throttles tables, constant during a run. */
  datatype Config = Config(users: map<int, User>, rules: map<(int, string), DomainRule>)

  /** An upstream account, as far as a message is affected by it. */
  datatype Account = Account(id: int, fromEmail: string)
}
