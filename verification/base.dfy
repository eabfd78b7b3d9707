/** Shared scalar types: instants are whole seconds, record ids are naturals. */
module Base {

  /** An instant, in whole seconds (Ruby's `Time`, without sub-second precision). */
  type Time = int

  /** A primary key. */
  type Id = nat

  const SecondsPerMinute: int := 60
}
