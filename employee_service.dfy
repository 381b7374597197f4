/**
 * The employee service: a stored Employee and its wire form EmployeeDto,
 * the null-preserving mappers between them, and the service calls that
 * read from or write to the employee repository.
 *
 * The repository is not modelled: findById reads a map, findAll and
 * findByRoleIgnoreCase are the result lists they return, and save is a
 * function from the entity passed in to the entity the store returns.
 */
module EmployeeApp {
  import opened JavaBase

  /** The stored entity: id, name, role, salary, each copied as is. */
  datatype Employee = Employee(id: Option<Long>, name: Option<string>, role: Option<string>, salary: Double)

  /** The wire form, with the same four fields. */
  datatype EmployeeDto = EmployeeDto(id: Option<Long>, name: Option<string>, role: Option<string>, salary: Double)

  /** What getById throws when the id is unknown. */
  datatype EmployeeError = ResourceNotFound(message: string)

  const NotFoundPrefix: string := "Employee not found with id "

  /** Entity to wire form: null gives null, otherwise a fresh DTO with the four fields. */
  function ToDto(e: Option<Employee>): (r: Option<EmployeeDto>)
    ensures r.None? <==> e.None?
    ensures e.Some? ==> && r.value.id == e.value.id && r.value.name == e.value.name
                        && r.value.role == e.value.role && r.value.salary == e.value.salary
  {
    match e
    case None => None
    case Some(emp) => Some(EmployeeDto(emp.id, emp.name, emp.role, emp.salary))
  }

  /** Wire form to entity: null gives null, otherwise a fresh entity with the four fields. */
  function ToEntity(d: Option<EmployeeDto>): (r: Option<Employee>)
    ensures r.None? <==> d.None?
    ensures d.Some? ==> && r.value.id == d.value.id && r.value.name == d.value.name
                        && r.value.role == d.value.role && r.value.salary == d.value.salary
  {
    match d
    case None => None
    case Some(dto) => Some(Employee(dto.id, dto.name, dto.role, dto.salary))
  }

  /** Mapping a DTO to an entity and back gives the DTO again. */
  lemma DtoRoundTrip(d: Option<EmployeeDto>)
    ensures ToDto(ToEntity(d)) == d
  {
  }

  /** Mapping an entity to a DTO and back gives the entity again. */
  lemma EntityRoundTrip(e: Option<Employee>)
    ensures ToEntity(ToDto(e)) == e
  {
  }

  /** The mappers lose nothing: distinct entities give distinct DTOs. */
  lemma ToDtoInjective(a: Option<Employee>, b: Option<Employee>)
    requires ToDto(a) == ToDto(b)
    ensures a == b
  {
    EntityRoundTrip(a);
    EntityRoundTrip(b);
  }

  /** A stream of entities mapped through toDto, in order. */
  function ToDtoList(es: seq<Employee>): (r: seq<EmployeeDto>)
    ensures |r| == |es|
    ensures forall i :: 0 <= i < |es| ==> Some(r[i]) == ToDto(Some(es[i]))
  {
    if es == [] then [] else [ToDto(Some(es[0])).value] + ToDtoList(es[1..])
  }

  /** getAllList: one DTO per row findAll returns, in the same order. */
  function GetAllList(findAll: seq<Employee>): (r: seq<EmployeeDto>)
    ensures |r| == |findAll|
    ensures forall i :: 0 <= i < |r| ==> ToEntity(Some(r[i])) == Some(findAll[i])
  {
    ToDtoList(findAll)
  }

  /**
   * getByRole: one DTO per row findByRoleIgnoreCase(role) returns, in the same
   * order; the matching itself is done by the database.
   */
  function GetByRole(role: string, matches: seq<Employee>): (r: seq<EmployeeDto>)
    ensures |r| == |matches|
    ensures forall i :: 0 <= i < |r| ==> ToEntity(Some(r[i])) == Some(matches[i])
  {
    ToDtoList(matches)
  }

  /** getById: the stored employee as a DTO, or ResourceNotFound naming the id. */
  function GetById(repo: map<Long, Employee>, id: Long): (r: Result<EmployeeDto, EmployeeError>)
    ensures r.Ok? <==> id in repo
    ensures r.Ok? ==> ToEntity(Some(r.value)) == Some(repo[id])
    ensures r.Thrown? ==> r.error == ResourceNotFound(NotFoundPrefix + LongToString(id))
  {
    if id in repo then Ok(ToDto(Some(repo[id])).value)
    else Thrown(ResourceNotFound(NotFoundPrefix + LongToString(id)))
  }

  /** The not-found message of getById carries exactly the id that was asked for. */
  lemma NotFoundMessageNamesId(repo: map<Long, Employee>, id: Long)
    requires id !in repo
    ensures IdInMessage(NotFoundPrefix, GetById(repo, id).error.message) == Some(id)
  {
    MessageNamesId(NotFoundPrefix, id);
  }

  /**
   * createDto: save is called once, on toEntity(dto), and the DTO of what it
   * returns is the result; mapped back, the result is exactly the saved entity.
   */
  function CreateDto(dto: EmployeeDto, save: Employee -> Employee): (r: EmployeeDto)
    ensures ToEntity(Some(r)) == Some(save(ToEntity(Some(dto)).value))
  {
    var entity := ToEntity(Some(dto)).value;
    var saved := save(entity);
    ToDto(Some(saved)).value
  }

  /**
   * With a repository whose save keeps the fields it is given and only fills
   * in the id, createDto returns the request with that id: in particular
   * the name is preserved.
   */
  lemma CreateDtoKeepsRequest(dto: EmployeeDto, save: Employee -> Employee)
    requires forall e :: save(e).(id := e.id) == e
    ensures CreateDto(dto, save).(id := dto.id) == dto
    ensures CreateDto(dto, save).name == dto.name
  {
    var entity := ToEntity(Some(dto)).value;
    assert save(entity).(id := entity.id) == entity;
  }
}
