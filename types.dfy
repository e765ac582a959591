/** Values shared by the routing service's model: class names, services and
    controllers, the PSR-7 responses the emitter receives, and the throwables
    that travel through a request. */
module Types {

  /** A fully qualified PHP class name. */
  type ClassName = string

  datatype Option<+T> = None | Some(value: T)

  /** The JSON documents a `JsonResponse` carries (only the shapes the
      routing service builds). */
  datatype Json =
    | JInt(i: int)
    | JString(s: string)
    | JObject(members: map<string, Json>)

  /** A response body: a JSON document not yet serialised, or bytes produced
      by some other library code. */
  datatype Body = JsonBody(doc: Json) | Bytes(octets: seq<bv8>)

  /** A PSR-7 response, as handed to the SAPI emitter. */
  datatype HttpResponse = HttpResponse(status: int, headers: map<string, seq<string>>, body: Body)

  /** The classes of throwable the routing service creates or tells apart. */
  datatype Kind =
    | BadRequest                              // SimpleSAML\Error\BadRequest
    | RuntimeError                            // \RuntimeException
    | SspError                                // SimpleSAML\Error\Exception
    | OAuthServer(generated: HttpResponse)    // OAuthServerException, with the response generateHttpResponse builds
    | NotFound                                // the container's miss on get()
    | Foreign(className: ClassName)           // anything else a collaborator throws

  /** A throwable with the text `getMessage()` returns. */
  datatype Throwable = Throwable(kind: Kind, message: string)

  datatype Result<+T> = Ok(value: T) | Err(error: Throwable)

  /** A service instance the container hands out; only its identity matters. */
  datatype Service = Service(id: nat)

  /** A constructed controller: its class and the constructor arguments it
      received, in order. */
  datatype Controller = Controller(className: ClassName, arguments: seq<Service>)
}
