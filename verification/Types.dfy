/** Thinknode types. */
module Types {
  import opened Wrappers

  /** A std::map is the sequence of its entries in key order. */
  datatype Type =
    | ArrayType(size: Option<int>, element: Type)
    | BlobType | BooleanType | DatetimeType | DynamicType | FloatType | IntegerType | NilType | StringType
    | EnumType(values: seq<(string, string)>)
    | MapType(key: Type, value: Type)
    | NamedType(account: Option<string>, app: string, name: string)
    | OptionalType(item: Type)
    | ReferenceType(target: Type)
    | StructureType(fields: seq<Field>)
    | UnionType(members: seq<Member>)

  datatype Field = Field(name: string, description: string, omissible: Option<bool>, schema: Type)

  datatype Member = Member(name: string, description: string, schema: Type)
}
