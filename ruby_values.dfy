/** Ruby values as far as the juggler core inspects them: job parameters
    produced by the serializer, the tag and payload of a `throw`, and
    exceptions raised by a strategy. */
module RubyValues {

  /** The identity of a job leased from beanstalkd. */
  type JobId = nat

  /** The identity of a JobRunner object created by a Runner. */
  type RunnerId = nat

  /** A Ruby value. Only strings and symbols are ever compared by the core;
      every other object is opaque and identified by a number. */
  datatype Value =
    | Nil
    | Str(chars: string)
    | Sym(name: string)
    | Obj(ref: nat)

  /** A Ruby exception: its class name and whether that class descends from
      StandardError (the only exceptions a bare `rescue => e` catches). */
  datatype RubyException = RubyException(className: string, standardError: bool)

  datatype Option<T> = None | Some(value: T)
}
