/** Shared vocabulary of the isolation core: object identities, and the
    Option/Result shapes that stand for .NET's null references and thrown
    exceptions. */
module Common {

  /** Identity of a runtime object (a test instance, a type, an assembly, a
      load context). Two references denote the same object exactly when their
      ids are equal, which is what ReferenceEquals decides. */
  type ObjectId = nat

  datatype Option<T> = None | Some(value: T)

  /** The exceptions the core can raise: one constructor per throw site or
      per dereference of a null field or of a dead weak reference. */
  datatype Fault =
    | DuplicateTestType                 // registeredInterceptors.Add on a type already present
    | DuplicateMethodName(name: string) // _interceptorMethods.Add on a name already present
    | NotSupported(name: string)        // an eligible method that takes parameters
    | AssemblyLoadFailed                // LoadFromAssemblyPath returned null
    | NotIsolated                       // the loaded assembly is the original one
    | TypeNotFound                      // the test type is absent from the loaded copy
    | AssemblyCollected                 // the isolated assembly's weak reference is dead
    | TypeCollected                     // the isolated type's weak reference is dead
    | CreateInstanceFailed              // CreateInstance returned null
    | NullReference                     // a member reached through a null field or a null Target
    | LoadContextCollected              // the load context's weak reference is dead at unload time
    | UnknownTestType                   // registeredInterceptors[type] on an unregistered type

  datatype Result<T> = Success(value: T) | Failure(error: Fault)

  datatype Outcome = Pass | Fail(error: Fault)
}
