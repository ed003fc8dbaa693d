# Mock repository of the trading-signals data-access layer

The data-access layer in `services/api.ts` offers login, registration,
paginated signal queries, administrative user management and a randomised
backtest. The Firestore handle it checks is always `null`: the line that would
create it in `services/firebaseConfig.ts` is commented out. So every operation
takes its fallback path. That path works on two process-wide lists: the
user list `mockUsers` and the administrator list `mockAdminUsers`. It also
reads a fixed signal list and produces random backtest data. This project
models that fallback path and proves its properties.

- `types.dfy` (module `Types`): the view models `User`, `AdminUser`,
  `Signal` and `PaginatedResponse`, the roles, the account statuses
  `Ativo`/`Suspenso`, the plan labels, the guest constants, and
  `Option`/`Result`.
- `decimal.dfy` (module `Numerals`): how a template literal renders a
  non-negative integer below 10^21 (larger ones come out in exponent form).
  It is used in the ids `new_${Date.now()}` and in the dates `2024-05-${25-i}`.
- `lookup.dfy` (module `Lookup`): first-match search (`find`/`findIndex`),
  `login` and `upgradePlan`. Both operations only read the user list, so they
  are functions of it.
- `signals.dfy` (module `Signals`): `getSignals`, which is JavaScript `slice`
  over an index window.
- `store.dfy` (module `Store`): the class `MockStore`, which holds the two
  lists. Its methods are `Register` (push and unshift), `UpdateUserStatus`
  (assignment by index), `DeleteUser` (splice) and `GetAdminUsers` (copy).
  Each mutating method is proved against a recursive reference definition,
  `WithStatus` or `WithoutUser`. Lemmas then state what those definitions mean.
- `backtest.dfy` (module `Backtest`): `runBacktest`. It is a method with the
  source's 15-round loop, and the random draws are parameters.

`Date.now()` is the parameter `now` of `Register`. Each `Math.random()` draw
that the modelled fields depend on is a parameter of `RunBacktest`, of type
`Draw` (a real in [0, 1)). The starting contents of the two lists and of the
signal list come from a constants file, which is not part of this model. They
are the constructor's arguments and `GetSignals`'s `signals` argument.

The backtest's trade count is computed at services/api.ts:219 as
`floor(r * 150) + 50`, which lies in [50, 199].

Registered ids are not guaranteed distinct: two registrations at the same
clock reading get the same id `new_<now>`. `Store.DeleteTwiceIsDeleteOnce`
therefore assumes distinct ids; the store itself does not maintain them.
With a repeated id, `upgradePlan` acts on the oldest user (new
users are pushed at the end of the user list), while `updateUserStatus` and
`deleteUser` act on the newest admin row (new rows are unshifted at the front).

## Model

| member | source | states |
|---|---|---|
| `Lookup.IndexOf` | services/api.ts:275 | `findIndex`/`find`: the result is the first position holding the key, and it is absent exactly when no position holds the key |
| `Lookup.IndexOfAppend` | services/api.ts:45 | appending an element does not move the first match of a key already present; a key present only in the new element is found at the old length |
| `Lookup.Login` | services/api.ts:42-53 | the returned user always carries the given email. It is the first stored user with that email; with no such user it is the guest `{guest, Usuário Convidado, email, free, Gratuito}`. The password plays no part |
| `Lookup.UpgradePlan` | services/api.ts:272-292 | for the first stored user with the id: that user with role premium and plan `Premium`. With no such user: the premium guest for id `guest`, otherwise the rejection "User not found". Rejection happens exactly for an unknown non-guest id. Every success carries the requested id, role premium and plan `Premium` |
| `Signals.Slice` | services/api.ts:173 | `slice(start, end)` for non-negative arguments: its length is `max(0, min(end,n) - min(start,n))` and element `k` is element `start + k` of the list |
| `Signals.GetSignals` | services/api.ts:168-184 | for `page >= 1`, `limit >= 0`: the data is the contiguous window starting at `(page-1)*limit`, of length `min(limit, max(0, n-(page-1)*limit))`; `total` is the list length, `page` and `limit` are echoed, and `hasMore` holds iff `page*limit < n` |
| `Signals.SignalOnItsPage` | services/api.ts:171-173 | for `limit > 0`, signal `i` appears on page `i / limit + 1` at position `i % limit` |
| `Signals.HasMoreIffNextPageNonEmpty` | services/api.ts:172-174 | for `limit > 0`, `hasMore` of a page is true iff the next page is non-empty |
| `Signals.ZeroLimitHasMoreForever` | services/api.ts:171-174 | for `limit = 0`, every page is empty, yet `hasMore` holds iff the list is non-empty, and then it holds on the next page too, so paging while `hasMore` holds never ends |
| `Signals.FirstPagesArePrefix` | services/api.ts:171-173 | pages 1 to `k` read one after another are exactly the signals before the start of page `k+1`: no overlap, no gap, original order |
| `Numerals.ParseDecimalInverts` | services/api.ts:90 | reading a number's template-literal rendering back as decimal digits gives the number |
| `Numerals.DecimalInjective` | services/api.ts:229 | distinct numbers have distinct renderings, so distinct days give distinct date strings |
| `Store.NewUserId` | services/api.ts:90 | a registered user's id `new_<now>` is never the guest id |
| `Store.NewUserIdsDistinct` | services/api.ts:90 | registrations at distinct clock readings get distinct ids |
| `Store.MockStore.Register` | services/api.ts:86-110 | returns `{new_<now>, name, email, free, Gratuito}`. The user list becomes the old list plus that user at the end. The admin list becomes `{id, name, email, Gratuito, Ativo}` followed by the old list. Every earlier entry of both lists keeps its order |
| `Store.MockStore.GetAdminUsers` | services/api.ts:211 | returns a list equal to the admin list as it stands |
| `Store.MockStore.UpdateUserStatus` | services/api.ts:314-322 | the admin list becomes `WithStatus(old list, id, status)` and keeps its length; the user list is unchanged |
| `Store.MockStore.DeleteUser` | services/api.ts:332-340 | the admin list becomes `WithoutUser(old list, id)`; the user list is unchanged |
| `Store.WithStatusAt` | services/api.ts:316-319 | when the first row with the id is at `i`, the update replaces row `i` by the same row with the new status: every other row and every other field stay the same |
| `Store.WithStatusAbsent` | services/api.ts:316-320 | updating an id no row carries leaves the admin list as it was (a no-op that still succeeds) |
| `Store.LastStatusWins` | services/api.ts:318 | two updates of the same id equal the later one alone, so repeating an update changes nothing |
| `Store.WithoutUserAt` | services/api.ts:334-337 | when the first row with the id is at `i`, the deletion yields the rows before `i` followed by the rows after `i`, in order; the list is one shorter |
| `Store.WithoutUserAbsent` | services/api.ts:334-338 | deleting an id no row carries leaves the admin list as it was (a no-op that still succeeds) |
| `Store.DeleteTwiceIsDeleteOnce` | services/api.ts:334-337 | when ids are distinct, the deleted id is gone afterwards, so deleting it again changes nothing |
| `Store.LoginAfterRegister` | services/api.ts:97 | after the push, `login` with a new email finds the new user; with an email already taken it still returns what it returned before |
| `Store.UpgradeAfterRegister` | services/api.ts:275-282 | a pushed user whose id was new can be upgraded, and the result is that user with the premium role and plan |
| `Backtest.RunBacktest` | services/api.ts:216-246 | `totalTrades = floor(r*150)+50`, in [50,199]; `winRate = floor(r'*40)+50`, in [50,89]; exactly 15 trades. Trade `i` is dated `2024-05-<25-i>` (the days 25 down to 11) and its dates are pairwise distinct. Its result is 5.0 when its draw times 100 is below the win rate and -3.0 otherwise. Its side is `Compra` when its side draw exceeds 0.5 and `Venda` otherwise. The list is strictly newest first |
| `Backtest.NewestFirstIsUnique` | services/api.ts:242 | two newest-first lists holding the same trades are equal. The loop already builds its list newest first, so the sort by date, newest first, returns the list as built |

## Left out

- The Firebase/Firestore branches of every operation: they are network calls into a foreign SDK, and they cannot run because the Firestore handle is always `null` (services/firebaseConfig.ts:16, 24).
- `setTimeout` delays (`FAKE_DELAY`, `BACKTEST_DELAY`), Promises and logging: these are timing and console output only. Each operation is modelled as an immediate function or method.
- `Math.random()` and `Date.now()`: they are parameters, as described above.
- `Backtest.RunBacktest`: does not model `entryPrice`, `exitPrice`, `cumulativeReturn` or `maxDrawdown`, which are floating-point values. It does not model the draws that feed them either. It does not run a sort: the date comparator is replaced by the integer day, and the sort's effect is given by `NewestFirstIsUnique`.
- `Backtest.RunBacktest`: the products `r*150`, `r*40` and `r*100` of the draws are taken exactly over the reals, not rounded to doubles. For a draw just below `k/150`, or just below `winRate/100`, the rounded product can reach `k` or the win rate, so the source may count one more trade, or a loss where the model counts a win. The stated ranges hold either way.
- `Signals.GetSignals`: requires `page >= 1` and `limit >= 0`, and takes whole numbers. JavaScript `slice` counts negative indices from the end, and the source accepts fractional numbers. The default arguments `page = 1, limit = 10` are not modelled.
- Object aliasing: `getAdminUsers` returns a shallow copy whose rows are the stored objects. So in the source, a later `updateUserStatus` also changes a row seen through an earlier copy. This model uses value semantics, and a copy never changes afterwards.
- `recoverPassword`, `toggleFollowProvider` and `getSignalProviders`: they only resolve a constant after a delay.
- The password arguments of `login` and `register`: the fallback path never reads them.
- services/geminiService.ts (a generative-AI network call), services/firebaseConfig.ts and services/supabaseClient.ts (environment reading and SDK client construction) are not part of this model.
- The types file and the constants file that define the records and the initial datasets are not part of this model. They are modelled from their use in services/api.ts. The signal's trade direction is kept as a string.
