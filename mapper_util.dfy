/** `MapperUtil.toImcRecord`: the entity-to-record projection. */
module MapperUtil {
  import opened Wrappers
  import opened ImcTypes

  /** Copies the five measured fields; the record gets neither `id` nor `userId`. */
  function ToImcRecord(entity: ImcEntity): (r: ImcRecord)
    ensures r.peso == entity.peso && r.altura == entity.altura && r.imc == entity.imc
    ensures r.categoria == entity.categoria && r.fecha == entity.fecha
    ensures r.id.None? && r.userId.None?
  {
    ImcRecord(None, entity.peso, entity.altura, entity.imc, entity.categoria, entity.fecha, None)
  }

  /** Two entities that differ only in `id` and `userId` project to the same record. */
  lemma ToImcRecordIgnoresIdentity(e: ImcEntity, id: ObjectId, userId: Option<string>)
    ensures ToImcRecord(e.(id := id, userId := userId)) == ToImcRecord(e)
  {
  }
}
