/** The declarative metadata an entity class carries: `@Table` on the class,
    `@Column` on each persisted field. Reflection over declared fields is
    replaced by an explicit, ordered sequence of fields. */
module Annotations {
  import opened Common

  /** `@Column`. `name` and `sqlType` are mandatory; every other attribute
      defaults as the annotation declares: not a key, nullable, updatable,
      and no foreign key (both targets empty). */
  datatype ColumnDesc = Column(
    name: string,
    sqlType: string,
    primaryKey: bool := false,
    nullable: bool := true,
    updatable: bool := true,
    fkTable: string := "",
    fkColumn: string := "")

  /** `@Table`. `name` is mandatory. */
  datatype TableDesc = Table(name: string)

  /** A field's Java type, as far as its initial value is concerned. */
  datatype JavaType = IntType | DoubleType | ReferenceType

  /** A declared field: Java name, Java type and its `@Column`, if annotated. */
  datatype Field = Field(javaName: string, javaType: JavaType, column: Option<ColumnDesc>)

  /** An entity class. `@Table` targets types only, so a class has at most one
      table name; `fields` is the declaration order. */
  datatype EntityType = EntityType(
    className: string,
    table: Option<TableDesc>,
    fields: seq<Field>,
    hasNoArgConstructor: bool)

  /** The value a field holds in a freshly constructed object. */
  function InitialValue(t: JavaType): Value
  {
    match t
    case IntType => Int(0)
    case DoubleType => Double(0)
    case ReferenceType => Null
  }

  /** A foreign key is declared only when both targets are non-empty. */
  predicate HasForeignKey(c: ColumnDesc)
  {
    c.fkTable != "" && c.fkColumn != ""
  }

  /** A class never declares two fields with the same name. */
  predicate DistinctFieldNames(t: EntityType)
  {
    forall i, j :: 0 <= i < j < |t.fields| ==> t.fields[i].javaName != t.fields[j].javaName
  }

  /** An entity object: the value of every declared field, by Java name. */
  type Obj = map<string, Value>

  predicate IsInstance(t: EntityType, obj: Obj)
  {
    forall f :: f in t.fields ==> f.javaName in obj
  }

  /** `field.get(obj)`. */
  function FieldValue(obj: Obj, f: Field): Value
  {
    if f.javaName in obj then obj[f.javaName] else Null
  }

  /** `type.getDeclaredConstructor().newInstance()` for a class whose
      no-argument constructor assigns nothing: every field holds the initial
      value of its type. */
  function NewInstance(t: EntityType): (obj: Obj)
    ensures IsInstance(t, obj)
  {
    InitialFields(t.fields)
  }

  function InitialFields(fs: seq<Field>): (obj: Obj)
    ensures forall f :: f in fs ==> f.javaName in obj
  {
    if fs == [] then map[]
    else InitialFields(fs[1..])[fs[0].javaName := InitialValue(fs[0].javaType)]
  }
}
