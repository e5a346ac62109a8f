/** The dependency-injection container as the kernel sees it: a log of registrations and a log
    of bound configuration values. Hooks and resolvers are functions of its state. */
module Container {
  import opened Common

  datatype Value = Flag(flag: bool) | Number(number: int) | Text(text: string)

  datatype Registration = Registration(token: string, provider: nat)

  datatype Binding = Binding(key: string, value: Value)

  datatype Container = Container(registrations: seq<Registration>, bindings: seq<Binding>)

  /** A hook that throws leaves what it has done; `nullish` is whether it throws `undefined` or `null`. */
  datatype HookResult = Returned(container: Container) | Raised(container: Container, nullish: bool)

  type Hook = Container -> HookResult

  /** A configured value: JavaScript's `undefined`, a plain value, or a resolver object that reads
      the container and may fail; `id` is the identity of that object. */
  datatype Setting = Undefined | Plain(value: Value) | Computed(id: nat, resolve: Container -> Option<Value>)

  datatype Definition = Definition(
    parameterName: string,
    isRequired: bool,
    defaultResolvers: seq<Setting>,
    defaultValue: Setting)

  /** JavaScript's `===` on configured values. */
  predicate Same(a: Setting, b: Setting) {
    match (a, b)
    case (Undefined, Undefined) => true
    case (Plain(x), Plain(y)) => x == y
    case (Computed(i, _), Computed(j, _)) => i == j
    case _ => false
  }
}
