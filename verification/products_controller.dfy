/**
 * `ProductsController`: which routes need a token, how each route hands its
 * input to the service, and the shape of what it answers. Guards run
 * first, then the upload interceptor, then the validation pipe and the
 * handler.
 */
module ProductsController {
  import opened Wrappers
  import opened Text
  import opened Errors
  import opened ProductEntity
  import opened ProductDtos
  import opened Listing
  import opened Upload
  import AuthService
  import opened JwtGuard
  import opened ProductsService

  /** One request to `/products`, with the route parameters already parsed. */
  datatype Request =
    | CreateRequest(body: CreateProductBody)
    | FindAllRequest(query: QueryParams)
    | FindOneRequest(id: int)
    | UpdateRequest(id: int, patch: Patch)
    | RemoveRequest(id: int)
    | UpdateImageRequest(id: int, file: Option<IncomingFile>)

  /** Only the two reading routes are public. */
  predicate RequiresToken(req: Request) {
    !(req.FindAllRequest? || req.FindOneRequest?)
  }

  datatype Response =
    | Saved(message: string, product: Product)   // { message, product }
    | One(product: Product)                      // { product }
    | Page(listed: Listed)                       // { data, meta }
    | NoContent                                  // 204

  const CreatedMessage := "Produto criado com sucesso"
  const UpdatedMessage := "Produto atualizado com sucesso"
  const ImageUpdatedMessage := "Imagem atualizada com sucesso"

  /** What a request sees besides the database: the token signer, the upload settings, the clock and the random draws. */
  datatype Env = Env(signer: AuthService.Signer, upload: UploadConfig, now: int, draws: seq<int>)

  /** The paging a listing request must carry for the listing to be defined. */
  predicate PagingDefined(req: Request) {
    req.FindAllRequest? ==>
      req.query.page.GetOr(DefaultPage) >= 1 && req.query.limit.GetOr(DefaultLimit) >= 1
  }

  /** A service step answered as `{ message, product }`. */
  function Respond(s: Step<Product>, message: string): (r: Step<Response>)
    ensures r.catalog == s.catalog
    ensures r.result.Success? <==> s.result.Success?
    ensures r.result.Success? ==> r.result.value == Saved(message, s.result.value)
    ensures r.result.Failure? ==> r.result.error == s.result.error
  {
    match s.result
    case Failure(e) => Step(s.catalog, Failure(e))
    case Success(p) => Step(s.catalog, Success(Saved(message, p)))
  }

  /** `create`: the validation pipe, then the service. */
  function RouteCreate(c: Catalog, env: Env, body: CreateProductBody): (r: Step<Response>)
    requires Valid(c)
    ensures Valid(r.catalog)
    ensures r.result.Success? ==> r.result.value.Saved? && r.result.value.message == CreatedMessage
  {
    match ValidateCreate(body)
    case Failure(e) => Step(c, Failure(e))
    case Success(np) => Respond(Create(c, np, env.now), CreatedMessage)
  }

  /** `findAll`: the validation pipe on the query, then the listing. */
  function RouteFindAll(c: Catalog, query: QueryParams): (r: Step<Response>)
    requires Valid(c) && query.page.GetOr(DefaultPage) >= 1 && query.limit.GetOr(DefaultLimit) >= 1
    ensures r.catalog == c
    ensures r.result.Success? ==> r.result.value.Page?
  {
    match ValidateQuery(query)
    case Failure(e) => Step(c, Failure(e))
    case Success(q) =>
      match FindAll(c, q)
      case Failure(e) => Step(c, Failure(e))
      case Success(listed) => Step(c, Success(Page(listed)))
  }

  /** `findOne`. */
  function RouteFindOne(c: Catalog, id: int): (r: Step<Response>)
    requires Valid(c)
    ensures r.catalog == c
    ensures r.result.Success? <==> id in c.products
    ensures id in c.products ==> r.result == Success(One(c.products[id]))
  {
    match FindOne(c, id)
    case Failure(e) => Step(c, Failure(e))
    case Success(p) => Step(c, Success(One(p)))
  }

  /** `remove`, answered with an empty 204. */
  function RouteRemove(c: Catalog, id: int): (r: Step<Response>)
    requires Valid(c)
    ensures Valid(r.catalog)
    ensures r.result.Success? <==> id in c.products
    ensures r.result.Success? ==> r.result.value.NoContent?
  {
    var s := Remove(c, id);
    Step(s.catalog, if s.result.Success? then Success(NoContent) else Failure(s.result.error))
  }

  /** `updateImage`: the file the interceptor stored, if any, then the service. */
  function RouteUpdateImage(c: Catalog, env: Env, id: int, file: Option<IncomingFile>): (r: Step<Response>)
    requires Valid(c) && ValidDraws(env.draws)
    ensures Valid(r.catalog)
    ensures r.result.Success? ==> r.result.value.Saved? && r.result.value.message == ImageUpdatedMessage
  {
    if file.None? then Step(c, Failure(NoFileSent))
    else
      match Receive(env.upload, file.value, env.draws)
      case Failure(e) => Step(c, Failure(e))
      case Success(stored) => Respond(UpdateImage(c, id, GetFileUrl(stored.filename)), ImageUpdatedMessage)
  }

  /** The route handlers, after the guard has let the request through. */
  function Route(c: Catalog, env: Env, req: Request): (r: Step<Response>)
    requires Valid(c) && ValidDraws(env.draws) && PagingDefined(req)
    ensures Valid(r.catalog)
    ensures !RequiresToken(req) ==> r.catalog == c
  {
    match req
    case CreateRequest(body) => RouteCreate(c, env, body)
    case FindAllRequest(query) => RouteFindAll(c, query)
    case FindOneRequest(id) => RouteFindOne(c, id)
    case UpdateRequest(id, patch) => Respond(Update(c, id, patch), UpdatedMessage)
    case RemoveRequest(id) => RouteRemove(c, id)
    case UpdateImageRequest(id, file) => RouteUpdateImage(c, env, id, file)
  }

  /** One request: the JWT guard on the protected routes, then the route. */
  function Handle(c: Catalog, env: Env, bearer: Option<string>, req: Request): (r: Step<Response>)
    requires Valid(c) && ValidDraws(env.draws) && PagingDefined(req)
    ensures RequiresToken(req) && Authenticate(env.signer, bearer).Failure? ==>
      r == Step(c, Failure(Unauthenticated))
    ensures !RequiresToken(req) ==> r.catalog == c
    ensures r.result.Success? ==>
      && (req.CreateRequest? ==> r.result.value.Saved? && r.result.value.message == CreatedMessage)
      && (req.UpdateRequest? ==> r.result.value.Saved? && r.result.value.message == UpdatedMessage)
      && (req.UpdateImageRequest? ==> r.result.value.Saved? && r.result.value.message == ImageUpdatedMessage)
      && (req.FindOneRequest? ==> r.result.value.One?)
      && (req.FindAllRequest? ==> r.result.value.Page?)
      && (req.RemoveRequest? ==> r.result.value.NoContent?)
    ensures Valid(r.catalog)
  {
    if RequiresToken(req) && Authenticate(env.signer, bearer).Failure? then Step(c, Failure(Unauthenticated))
    else Route(c, env, req)
  }

  // ---------------------------------------------------------------- lemmas

  /** The public routes answer the same whatever bearer token comes with them. */
  lemma PublicRoutesIgnoreBearer(c: Catalog, env: Env, b1: Option<string>, b2: Option<string>, req: Request)
    requires Valid(c) && ValidDraws(env.draws) && PagingDefined(req)
    requires !RequiresToken(req)
    ensures Handle(c, env, b1, req) == Handle(c, env, b2, req)
  {
  }

  /** `updateImage` without a file fails before the service runs: no row changes and no file is deleted. */
  lemma UpdateImageNeedsFile(c: Catalog, env: Env, bearer: Option<string>, id: int)
    requires Valid(c) && ValidDraws(env.draws)
    requires Authenticate(env.signer, bearer).Success?
    ensures Handle(c, env, bearer, UpdateImageRequest(id, None)) == Step(c, Failure(NoFileSent))
  {
  }

  /** An authenticated upload the interceptor accepts reaches `updateImage` with the stored file's URL. */
  lemma AcceptedUploadReachesService(c: Catalog, env: Env, bearer: Option<string>, id: int, f: IncomingFile)
    requires Valid(c) && ValidDraws(env.draws)
    requires Authenticate(env.signer, bearer).Success?
    requires Receive(env.upload, f, env.draws).Success?
    ensures Handle(c, env, bearer, UpdateImageRequest(id, Some(f)))
         == Respond(UpdateImage(c, id, GetFileUrl(Receive(env.upload, f, env.draws).value.filename)), ImageUpdatedMessage)
  {
    var req := UpdateImageRequest(id, Some(f));
    assert Handle(c, env, bearer, req) == Route(c, env, req);
    RoutesUpdateImage(c, env, id, Some(f));
  }

  lemma RoutesUpdateImage(c: Catalog, env: Env, id: int, file: Option<IncomingFile>)
    requires Valid(c) && ValidDraws(env.draws)
    ensures Route(c, env, UpdateImageRequest(id, file)) == RouteUpdateImage(c, env, id, file)
  {
  }

  /** An accepted upload for a stored product points the product at the stored file's URL. */
  lemma UploadSetsImageUrl(c: Catalog, env: Env, bearer: Option<string>, id: int, f: IncomingFile, stored: StoredFile)
    requires Valid(c) && ValidDraws(env.draws)
    requires Authenticate(env.signer, bearer).Success?
    requires id in c.products
    requires Receive(env.upload, f, env.draws) == Success(stored)
    ensures Handle(c, env, bearer, UpdateImageRequest(id, Some(f))).result.Success?
    ensures Handle(c, env, bearer, UpdateImageRequest(id, Some(f))).catalog.products
         == c.products[id := c.products[id].(imageUrl := Some(GetFileUrl(stored.filename)))]
  {
    AcceptedUploadReachesService(c, env, bearer, id, f);
  }

  /** An accepted upload for a product whose image is a stored upload deletes exactly that file. */
  lemma UploadReleasesStoredImage(c: Catalog, env: Env, bearer: Option<string>, id: int, name: string, g: IncomingFile)
    requires Valid(c) && ValidDraws(env.draws)
    requires Authenticate(env.signer, bearer).Success?
    requires id in c.products && name != "" && '/' !in name
    requires c.products[id].imageUrl == Some(GetFileUrl(name))
    requires Receive(env.upload, g, env.draws).Success?
    ensures Handle(c, env, bearer, UpdateImageRequest(id, Some(g))).catalog.deleted == c.deleted + [name]
  {
    AcceptedUploadReachesService(c, env, bearer, id, g);
    ReleasesUploadedFile(name);
  }
}
