/**
  What the program reads from a loaded test assembly through reflection,
  written as plain data: the assembly's types in the order `GetTypes`
  reports them, each type's custom attributes and public methods, and each
  method's custom attributes.
 */
module Metadata {

  /**
    One entry of `GetCustomAttributesData()`: the simple name of the
    attribute's type (`AttributeType.Name`) and its constructor arguments,
    each given by its string value. `isTestMarker` says whether the
    attribute's type is NUnit's `TestAttribute` or derives from it, which is
    what `GetCustomAttributes(typeof(TestAttribute), false)` tests; unlike
    the other lookups, that one goes by type, not by name.
   */
  datatype CustomAttribute = CustomAttribute(typeName: string, arguments: seq<string>, isTestMarker: bool)

  /** One entry of `GetMethods()`. */
  datatype MethodEntry = MethodEntry(name: string, attributes: seq<CustomAttribute>)

  /** One entry of `GetTypes()`: its `Name`, attributes and methods. */
  datatype TypeEntry = TypeEntry(name: string, attributes: seq<CustomAttribute>, methods: seq<MethodEntry>)

  /** A loaded assembly. */
  datatype Assembly = Assembly(types: seq<TypeEntry>)
}
