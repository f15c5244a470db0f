/** The part of an Express response the handlers produce. */
module Express {
  import opened JsValues

  /** `res.status(status).send(body)` */
  datatype Reply = Reply(status: JsValue, body: JsValue)

  /** The JSON error envelope `{ msg: m }`. */
  function MsgBody(m: JsValue): JsValue {
    Obj(map["msg" := m])
  }
}
