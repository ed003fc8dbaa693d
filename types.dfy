/** The view models of the trading-signals data-access layer (the records the
    mock repository hands out) and the small wrappers its operations return. */
module Types {

  /** A value that may be absent (an optional field, an index `findIndex` did not find). */
  datatype Option<+T> = None | Some(value: T)

  /** The outcome of an operation that can reject, such as `upgradePlan`. */
  datatype Result<+T> = Ok(value: T) | Err(message: string)

  /** `UserRole.FREE` ('free') and `UserRole.PREMIUM` ('premium'). */
  datatype Role = Free | Premium

  /** A signed-in (or guest) user. */
  datatype User = User(id: string, name: string, email: string, role: Role, plan: string)

  /** The two states an administrator can give an account. */
  datatype Status = Ativo | Suspenso

  /** A row of the administrator's user list; `joinDate` is optional. */
  datatype AdminUser = AdminUser(id: string, name: string, email: string, plan: string,
                                 status: Status, joinDate: Option<string>)

  /** The provider fields a signal carries with it. */
  datatype ProviderSummary = ProviderSummary(name: string, avatarUrl: string, winRate: real)

  /** A published trading signal; prices are kept as exact reals. */
  datatype Signal = Signal(id: string, provider: ProviderSummary, pair: string, kind: string,
                           timeframe: string, entry: real, target: real, stop: real,
                           justification: string, imageUrl: Option<string>, timestamp: string)

  /** One page of a paginated query. */
  datatype PaginatedResponse<T> = PaginatedResponse(data: seq<T>, total: nat, page: int,
                                                    limit: int, hasMore: bool)

  /** The plan label of a free account and of a premium one. */
  const FreePlan: string := "Gratuito"
  const PremiumPlan: string := "Premium"

  /** The identity handed out when no stored user matches. */
  const GuestId: string := "guest"
  const GuestName: string := "Usuário Convidado"
  const PremiumGuestEmail: string := "guest@test.com"

  /** The rejection `upgradePlan` raises for an unknown, non-guest id. */
  const UserNotFound: string := "User not found"

  function Min(a: int, b: int): int { if a <= b then a else b }
  function Max(a: int, b: int): int { if a >= b then a else b }
}
