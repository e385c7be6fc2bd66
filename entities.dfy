/** Result shapes and the domain records the order service works on. */
module Wrappers {

  /** A value that may be absent; stands in for a C# reference that may be null. */
  datatype Option<+T> = None | Some(value: T)

  /** The failure the service signals instead of completing an operation:
      `NotFound` when nothing is stored under the requested id, and
      `NullDereference` where the C# code dereferences the missing order. */
  datatype ServiceError = NotFound | NullDereference

  /** Outcome of an operation that returns a value. */
  datatype Result<+T> = Success(value: T) | Failure(error: ServiceError)

  /** Outcome of an operation that returns nothing. */
  datatype Outcome = Pass | Fail(error: ServiceError)
}

module Entities {

  /** Sale status of an order. The enumeration itself is not part of this
      model; a status is carried by its underlying integer code. */
  datatype StatusVenda = StatusVenda(code: int)

  /** An order (Ordem): the fields the service sorts by and the status it
      updates. `total` is a decimal amount; `dataCriacao` is the creation
      instant as a tick count. */
  datatype Ordem = Ordem(
    id: int,
    clienteId: int,
    vendedorId: int,
    total: real,
    dataCriacao: int,
    status: StatusVenda)

  /** Paging request sent by the client; `orderedBy` is the free-text sort key. */
  datatype PagingParameters = PagingParameters(pageNumber: int, pageSize: int, orderedBy: string)

  /** Paging metadata computed by the repository alongside a page. */
  datatype PagingInfo = PagingInfo(totalItems: int, totalPages: int, currentPage: int, pageSize: int)
}
