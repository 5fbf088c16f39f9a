/** Source references and projection keys (source/model.go, source/definition_manifest.go). */
module SourceModel {
  import opened Text
  import opened Json

  datatype Ref = Ref(sourceType: string, sourceID: string)

  /** NewRef succeeds. */
  predicate ValidRef(r: Ref) {
    ValidText(r.sourceType, MAX_TYPE_LENGTH) && ValidText(r.sourceID, MAX_ID_LENGTH)
  }

  datatype ProjectionKey = ProjectionKey(name: string, version: string)

  /** ProjectionKey.Validate */
  predicate ValidKey(k: ProjectionKey) {
    ValidText(k.name, MAX_ID_LENGTH) && ValidText(k.version, MAX_ID_LENGTH)
  }

  /** projectionKeyWire */
  function PrintKey(k: ProjectionKey): Json {
    Object([Member("name", String(k.name)), Member("version", String(k.version))])
  }
}
