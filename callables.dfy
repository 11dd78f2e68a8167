/**
 * Host callables (the `operator.*` and `math.*` functions, builtins such as
 * `max` and `sum`, user lambdas) are foreign code; the model keeps each as an
 * opaque identifier and never applies it.
 */
module Callables {

  datatype HostFunc = HostFunc(name: string)
}
