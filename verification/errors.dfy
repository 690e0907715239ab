/** The exceptions the backend throws, and the HTTP status the framework answers each with. */
module Errors {

  datatype Error =
    | ProductNotFound(id: int)   // NotFoundException(`Produto #${id} não encontrado`)
    | UserNotFound               // NotFoundException('Usuário não encontrado')
    | EmailTaken                 // ConflictException('Email já cadastrado')
    | InvalidCredentials         // UnauthorizedException('Credenciais inválidas')
    | InvalidToken               // UnauthorizedException('Token inválido ou expirado')
    | Unauthenticated            // the JWT guard refusing a request: no bearer token, or one that does not verify
    | Invalid(fields: seq<string>) // the validation pipe rejecting a body or query
    | NoFileSent                 // plain Error('Nenhum arquivo foi enviado')
    | FileRejected               // the upload filter's Error, handed to the multer callback
    | FileTooLarge               // multer's size limit
    | ColumnOverflow             // the database refusing a value its column cannot hold
    | NullColumn                 // the database refusing NULL in a NOT NULL column
    | FileMissing                // fs.unlink's ENOENT; deleteFile logs and swallows it
    | BadSortOrder               // the query builder refusing a sort direction

  /** The status code a client observes; errors that are not HTTP exceptions become 500. */
  function Status(e: Error): (code: int)
    ensures e.InvalidCredentials? || e.InvalidToken? || e.Unauthenticated? <==> code == 401
    ensures e.ProductNotFound? || e.UserNotFound? <==> code == 404
    ensures code == 409 <==> e.EmailTaken?
    ensures 400 <= code < 600
  {
    match e
    case ProductNotFound(_) => 404
    case UserNotFound => 404
    case EmailTaken => 409
    case InvalidCredentials => 401
    case InvalidToken => 401
    case Unauthenticated => 401
    case Invalid(_) => 400
    case FileTooLarge => 413
    case _ => 500
  }
}
