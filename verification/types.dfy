/** The type language: the basic types of the checker plus the function and
    pointer types used for built-in signatures. Equality is structural. */
module Types {

  datatype Type =
    | Int
    | Bool
    | Unit
    | FunctionType(paramTypes: seq<Type>, returnType: Type)
    | PointerType(baseType: Type)
}
