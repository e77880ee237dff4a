/** What a database tells about its tables, and when two tables are comparable (schema/table.go). */
module TableSchemas {
  import opened Values

  /** The normalised type and the type as declared. */
  datatype ColumnType = ColumnType(baseType: int, dbType: Name)

  datatype Geometry = Geometry(isGeometry: bool, geomType: Name, srsId: int, hasZ: bool, hasM: bool)

  datatype ColumnInfo = ColumnInfo(name: Name, columnType: ColumnType, isPrimaryKey: bool, isNotNull: bool,
                                   isAutoIncrement: bool, geometry: Geometry) {
    /** The declared type may differ. */
    predicate CompareWithBaseTypes(other: ColumnInfo) {
      && name == other.name && columnType.baseType == other.columnType.baseType
      && isPrimaryKey == other.isPrimaryKey && isNotNull == other.isNotNull
      && isAutoIncrement == other.isAutoIncrement && geometry == other.geometry
    }
  }

  datatype CrsDefinition = CrsDefinition(srsId: int, authName: Name, authCode: int, wkt: Name) {
    /** The text form is left out. */
    predicate Equal(other: CrsDefinition) {
      srsId == other.srsId && authName == other.authName && authCode == other.authCode
    }
  }

  datatype TableSchema = TableSchema(name: Name, columns: seq<ColumnInfo>, crs: CrsDefinition) {
    /** Its changeset header. */
    function Table(): ChangesetTable {
      ChangesetTable(name, seq(|columns|, i requires 0 <= i < |columns| => columns[i].isPrimaryKey))
    }

    predicate HasPrimaryKey() {
      true in Table().primaryKeys
    }

    predicate SameOutline(other: TableSchema) {
      name == other.name && crs.Equal(other.crs) && |columns| == |other.columns|
    }

    predicate Equal(other: TableSchema) {
      SameOutline(other) && forall i | 0 <= i < |columns| :: columns[i] == other.columns[i]
    }

    predicate CompareWithBaseTypes(other: TableSchema) {
      SameOutline(other) && forall i | 0 <= i < |columns| :: columns[i].CompareWithBaseTypes(other.columns[i])
    }

    /** The driver accepts tables that are equal or equal up to declared types. */
    predicate Comparable(other: TableSchema) {
      Equal(other) || CompareWithBaseTypes(other)
    }
  }

  /** Comparable tables have one header; the exact comparison accepts nothing the looser one refuses. */
  lemma ComparableTables(a: TableSchema, b: TableSchema)
    ensures a.Comparable(b) <==> a.CompareWithBaseTypes(b)
    ensures a.Comparable(b) ==> a.Table() == b.Table()
  {
    if a.Comparable(b) {
      assert a.Table().primaryKeys == b.Table().primaryKeys;
    }
  }

  /** A table without its declared column types and the text form of its reference system. */
  function Erased(t: TableSchema): TableSchema {
    t.(crs := t.crs.(wkt := []),
       columns := seq(|t.columns|, i requires 0 <= i < |t.columns| => t.columns[i].(columnType := ColumnType(t.columns[i].columnType.baseType, []))))
  }

  /** Tables are comparable exactly when they differ in nothing but declared types and that text. */
  lemma ComparableIff(a: TableSchema, b: TableSchema)
    ensures a.Comparable(b) <==> Erased(a) == Erased(b)
  {
    if a.Comparable(b) {
      assert Erased(a).columns == Erased(b).columns;
    }
    if Erased(a) == Erased(b) {
      forall i | 0 <= i < |a.columns| ensures a.columns[i].CompareWithBaseTypes(b.columns[i]) {
        assert Erased(a).columns[i] == Erased(b).columns[i];
      }
    }
  }
}
