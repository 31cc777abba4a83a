# Verified model of the agent security layer

This project models the stateful core of an autonomous trading platform's security layer, and a few self-contained
algorithms beside it, and proves what they guarantee over whole runs.

Most of the components are small mutable machines on top of Redis: quota counters, circuit breakers, a sliding-window
limiter, a list of recent orders, single-use tokens, approval challenges, a kill switch with its drawdown monitor, and a
log whose entries are chained by HMACs. What they promise depends on when keys expire, when counters restart and what
earlier calls left behind. Each is a class over a typed key store with expiry (`TtlStore.dfy`), and carries a ghost
history of its calls. Its methods are proved against a function or predicate of that history, and the theorems about whole
runs are lemmas about histories. The algorithms are the drift statistics over trades, a rolling anomaly window, an
incremental event-stream reader, wallet grouping, a canonical form for signed payloads, the Luhn rule, an LRU map and an
ETag cache.

Conventions:

- Time is a number of milliseconds that never decreases and is passed to every call. A key dies strictly after its expiry,
  `INCR` on a dead key starts again at 1 without an expiry, and a push onto a dead list starts a new list.
- Every public asynchronous call is one atomic step.
- Money, prices and statistics are `real`; `Math.sqrt` is any function that gives the non-negative root.
- HMACs, signatures, `JSON.parse`, `localeCompare`, drawn identifiers, server replies and write failures are parameters.
  A lemma that needs a law of one of them says so in its `requires`.

## Model

| member | source | states |
|---|---|---|
| TtlStores.Incr | security/rate-limit/redis.adapter.ts:50-54 | A live counter goes up by one and keeps its expiry; a dead or missing one becomes 1 and has no expiry. |
| TtlStores.TtlStore.SetEx | security/rate-limit/redis.adapter.ts:36-43 | Only this key changes; it holds the value until exactly its time to live has passed. |
| TtlStores.TtlStore.Expire | security/rate-limit/redis.adapter.ts:56-62 | A live key keeps its value and gets a new expiry; a dead one stays dead. |
| FixedWindow.Hit | security/rate-limit/exchange.quota.adapter.ts:71-81 | Increment, with an expiry set on the first count, keeps the stored counter equal to the current window of all the hits so far. |
| FixedWindow.IntervalBound | security/rate-limit/exchange.quota.adapter.ts:64-128 | If no counter window ever exceeds n, any half-open interval one window long holds at most 2n - 1 hits, wherever it starts. |
| FixedWindow.BoundIsMet | security/rate-limit/exchange.quota.adapter.ts:64-128 | For every n and window length some run has exactly 2n - 1 hits in one such interval, so the bound cannot be lowered. |
| FixedWindow.CappedAppend | security/rate-limit/exchange.quota.adapter.ts:101-128 | A hit after a check that found room, at any time since the last hit, never takes a window over its cap. |
| ExchangeQuota.ExchangeQuotaAdapter.RecordOrderSent | security/rate-limit/exchange.quota.adapter.ts:64-99 | Files the send; the count returned is that of the day's window of all sends; the warning flag, and the error exactly for an unknown exchange. |
| ExchangeQuota.UsedInFigures | security/rate-limit/exchange.quota.adapter.ts:82-84 | The warning comes exactly when 100 times the count is at least thresholdPercent times the limit. |
| ExchangeQuota.ExchangeQuotaAdapter.CanSendOrder | security/rate-limit/exchange.quota.adapter.ts:101-128 | Allows exactly when both windows of the sends so far have room, and reports both remaining figures. |
| ExchangeQuota.ClearedHasRoom | security/rate-limit/exchange.quota.adapter.ts:101-128 | An allowed check after the last send had room for one more order with the same sends on record. |
| ExchangeQuota.SendsAreCapped | security/rate-limit/exchange.quota.adapter.ts:64-128 | When every send follows an allowed check, no second or day window ever exceeds its limit. |
| ExchangeQuota.SendRateBound | security/rate-limit/exchange.quota.adapter.ts:64-128 | Under that discipline any half-open second holds at most 2 * ordersPerSecond - 1 sends and any 86400 s at most 2 * ordersPerDay - 1. |
| QuotaLimits.ReachableIffAdmissible | security/rate-limit/exchange.quota.adapter.ts:64-128 | The send times that disciplined callers can reach are exactly the ordered ones that never take a counter over its limit. |
| QuotaLimits.SecondBound | security/rate-limit/exchange.quota.adapter.ts:64-128 | A half-open second that holds more than ordersPerSecond sends holds at most 2 * ordersPerSecond - 1, and at most 2 * ordersPerDay - 2. |
| QuotaLimits.MostIsBound | security/rate-limit/exchange.quota.adapter.ts:64-128 | The most sends that any half-open second can hold: 2 * ordersPerDay - 1 where ordersPerSecond is at least that, else the smaller of 2 * ordersPerSecond - 1 and 2 * ordersPerDay - 2. |
| QuotaLimits.MostIsReached | security/rate-limit/exchange.quota.adapter.ts:64-128 | Admissible sends fill a second to exactly that number, for every config. |
| QuotaLimits.DayBoundIsMet | security/rate-limit/exchange.quota.adapter.ts:64-128 | Admissible sends fill 86400 s to 2 * ordersPerDay - 1, whatever ordersPerSecond, while 2002 ms for each order of the day fit into a day. |
| QuotaLimits.PlainReadingHoldsIff | security/rate-limit/exchange.quota.adapter.ts:64-128 | No second ever holds more than ordersPerSecond sends exactly if ordersPerSecond is 1 or 2 * ordersPerDay is at most ordersPerSecond + 2. |
| CircuitBreakers.CircuitBreaker.GetState | security/risk/circuit.breaker.ts:137-177 | Moves the abstract machine by one query and returns its phase; an open breaker turns half-open once the reset timeout has passed. |
| CircuitBreakers.CircuitBreaker.RecordSuccess | security/risk/circuit.breaker.ts:78-106 | Moves the abstract machine by one success; a half-open breaker closes, with CLOSED stored and its time and counter keys deleted. |
| CircuitBreakers.CircuitBreaker.RecordFailure | security/risk/circuit.breaker.ts:108-135 | Moves the abstract machine by one failure; the stored counter is the current window of the failures of this closed phase. |
| CircuitBreakers.CircuitBreaker.ForceOpened | security/risk/circuit.breaker.ts:184-186 | Moves the abstract machine by one forced opening. |
| CircuitBreakers.CircuitBreaker.OpenBreaker | security/risk/circuit.breaker.ts:190-213 | Opens at this time and forgets the failures counted. |
| CircuitBreakers.OpenSince | security/risk/circuit.breaker.ts:190-213 | In every run an open breaker has been open since its last change of phase, which opened it. |
| CircuitBreakers.QueryMoves | security/risk/circuit.breaker.ts:137-177 | After any run a query makes the breaker HALF_OPEN exactly if it is open since at least resetTimeoutMs; nothing else changes. |
| CircuitBreakers.SuccessMoves | security/risk/circuit.breaker.ts:78-106 | After any run a success leaves a half-open breaker, or one whose timeout has passed, CLOSED without failures, and any other as it was. |
| CircuitBreakers.FailureMoves | security/risk/circuit.breaker.ts:108-135 | After any run a failure opens such a breaker at its own time, and a closed one exactly if it is the threshold-th of its counter window; otherwise it is kept. |
| CircuitBreakers.Recovers | security/risk/circuit.breaker.ts:78-177 | An open breaker recovers: the query after the timeout, a success, and from threshold 2 on the next failure leaves it CLOSED. |
| CircuitBreakers.RunIsSafe | security/risk/circuit.breaker.ts:78-217 | In every run each change of phase is justified: OPEN is left only for HALF_OPEN and not before the reset timeout, CLOSED is reached only from HALF_OPEN, and failures open a closed breaker only when threshold of them lie in one counter window. |
| CircuitBreakers.ClosedPhaseFailureBound | security/risk/circuit.breaker.ts:108-135 | For a threshold of 2 or more, in every interval of the window rounded up to seconds: at most 2 * threshold - 3 failures of a closed phase while it lasts, and at most 2 * threshold - 2 together with the failure that ends it. |
| CircuitBreakers.EndedPhaseBoundIsMet | security/risk/circuit.breaker.ts:108-135 | For every threshold of 2 or more some run opens on the 2 * threshold - 2nd failure of one such interval, so neither bound can be lowered. |
| CircuitBreakers.UnnoticedFailures | security/risk/circuit.breaker.ts:108-135 | From threshold 3 on some run has 2 * threshold - 3 failures in one interval of any length from 2 ms on and stays closed. |
| CircuitBreakers.SlidingReadingHoldsIff | security/risk/circuit.breaker.ts:108-135 | Over any interval up to the window rounded up to seconds, the breaker opens on threshold failures within it exactly if the threshold is at most 2 or the interval is a single instant. |
| CircuitBreakers.ConfiguredWindowHoldsIff | security/risk/circuit.breaker.ts:108-135 | In particular over windowMs itself exactly if the threshold is at most 2 or windowMs is 1. |
| RateLimiters.RateLimiter.Check | security/rate-limit/rate.limiter.ts:48-95 | The answer and the remaining count are those of a log that never expires, as long as the key keeps one window length. |
| RateLimiters.RateLimiter.CheckAll | security/rate-limit/rate.limiter.ts:97-104 | One check per identifier, in order, one result each. |
| RateLimiters.CoveringSetIsExact | security/rate-limit/rate.limiter.ts:48-57 | After dropping what left the window, the stored set is the window of the never-expiring log, even when its key expired. |
| RateLimiters.WindowBound | security/rate-limit/rate.limiter.ts:48-95 | With one limit and window length per key, every window ending at any time holds at most limit allowed requests. |
| RateLimiters.RefusedIffWindowFull | security/rate-limit/rate.limiter.ts:48-95 | A request is refused exactly when limit requests were allowed in the window ending at it. |
| WashTrades.WashTradeDetector.Check | security/compliance/wash.trade.detector.ts:80-168 | Accepts exactly when no accepted order under the key, ever, mirrors the new one; otherwise names the newest mirror. |
| WashTrades.WashTradeDetector.FindMirror | security/compliance/wash.trade.detector.ts:91-152 | Finds the first mirror in the list, or shows that there is none. |
| WashTrades.SimilarInFigures | security/compliance/wash.trade.detector.ts:101-108 | Quantities of a positive total are similar exactly if they differ by at most a twentieth of it; with any other total always. |
| WashTrades.NothingMissed | security/compliance/wash.trade.detector.ts:88-166 | Though each push resets the list's expiry, every mirror inside the window is still in the live list. |
| WashTrades.AcceptedStaysClean | security/compliance/wash.trade.detector.ts:80-168 | No two accepted orders of one user on one instrument, on opposite sides and within the window, are within 10% of their average quantity. |
| WashTrades.UsersShareAListIff | security/compliance/wash.trade.detector.ts:56-58 | Two users can share a list exactly if one id goes on after the other and a colon. |
| WashTrades.RefuseAnothersMirror | security/compliance/wash.trade.detector.ts:80-168 | For any two users and instruments with one key, after an accepted order of the first a mirrored order of the second is refused and names it. |
| WashTrades.ColonFreeUsersNeverCollide | security/compliance/wash.trade.detector.ts:56-58 | For user ids without a colon, list keys are equal exactly for the same user and instrument. |
| WashTrades.KeysCanCollide | security/compliance/wash.trade.detector.ts:56-58 | Two such users and instruments, whose key is one. |
| TokenRotation.JwtValidator.GenerateRefreshToken | security/auth/jwt.validator.ts:188-210 | The claims, the identifier and the expiry of the token issued. |
| TokenRotation.JwtValidator.GenerateAccessToken | security/auth/jwt.validator.ts:165-186 | The claims of the token issued, which expires accessTokenExpirySeconds after its issue. |
| TokenRotation.AccessTokenExpires | security/auth/jwt.validator.ts:165-186 | Over every run the access token of a rotation verifies exactly until accessTokenExpirySeconds after it. |
| TokenRotation.RefreshTokenExpires | security/auth/jwt.validator.ts:188-210 | Every refresh token issued verifies exactly until refreshTokenExpirySeconds after its issue. |
| TokenRotation.TokenRotator.Rotate | security/auth/token.rotator.ts:52-149 | Which of the four errors arises, exactly when; otherwise one new pair for the same user, session and device, and one more rotation on record. |
| TokenRotation.TokenRotator.Exchange | security/auth/token.rotator.ts:114-148 | The marker is set before the claims are looked at, so a malformed token is spent without a pair. |
| TokenRotation.MarkerOutlivesToken | security/auth/token.rotator.ts:83-119 | While a token still verifies, its used-marker is visible exactly if it was spent. |
| TokenRotation.ExchangeKeeps | security/auth/token.rotator.ts:74-148 | Spending, issuing and recording keep the invariant that every refresh token has at most one pair. |
| TokenRotation.ChainKeepsHolder | security/auth/token.rotator.ts:121-148 | However long a chain of rotations, its last pair belongs to the root's user, session and device. |
| TokenRotation.RotatedScope | security/auth/token.rotator.ts:121-143 | Every access token that a rotation issues, anywhere in a chain, has only the refresh scope, since refresh tokens have no other and the rotation copies it. |
| TokenRotation.ChainsDoNotFork | security/auth/token.rotator.ts:52-149 | Two equally long chains from one root are the same chain. |
| Approvals.ApprovalFlow.CreateChallenge | security/confirmation/approval.flow.ts:125-162 | The challenge returned and stored, with its expiry and its HMAC over id, user, session and action. |
| Approvals.ApprovalFlow.SubmitApproval | security/confirmation/approval.flow.ts:164-230 | Approves exactly an unexpired, never approved challenge, submitted by its user with the right signature, and for the action it was made with; and exactly when each of the four errors arises. |
| Approvals.MarkerReadsTrue | security/confirmation/approval.flow.ts:171-176 | The consumed marker reads as present exactly while an approval's marker lives. |
| Approvals.ChallengeReadsTrue | security/confirmation/approval.flow.ts:178-192 | Even when the marker has lapsed, a used or expired challenge reads as absent or expired. |
| Approvals.ApprovingKeepsStore | security/confirmation/approval.flow.ts:211-213 | Deleting the challenge and setting the marker removes it for good, whether the store honours the TTL argument or not. |
| Approvals.ApprovingKeepsSoundness | security/confirmation/approval.flow.ts:164-230 | Over a run each challenge is approved at most once, by its user, no later than its expiry, for its own action. |
| Approvals.ApprovedInTime | security/confirmation/approval.flow.ts:125-213 | No approval comes more than five minutes after its challenge; its marker lives for one hour, or for good where the store ignores the TTL. |
| PositionLimits.PositionLimitsChecker.Check | security/risk/position.limits.ts:35-84 | Passes exactly if the portfolio with the order booked is within every limit; otherwise names exactly the limits it would break, in order, with the projected figures. |
| PositionLimits.PositionLimitsChecker.CheckInstrumentQuantityLimit | security/risk/position.limits.ts:88-112 | Pushes one breach, with that figure, exactly if the booked quantity would exceed the limit. |
| PositionLimits.PositionLimitsChecker.CheckInstrumentNotionalLimit | security/risk/position.limits.ts:114-146 | Pushes one breach, with that figure, exactly if the booked notional of the instrument would exceed the quantity limit at the estimated price. |
| PositionLimits.PositionLimitsChecker.CheckPortfolioNotionalLimit | security/risk/position.limits.ts:148-169 | Pushes one breach, with that figure, exactly if the booked total of a buy would exceed the limit. |
| PositionLimits.PositionLimitsChecker.CheckShortSellingRules | security/risk/position.limits.ts:171-191 | Pushes one breach, with the amount short, exactly if a sale would leave the position short. |
| PositionLimits.PriceInFigures | security/risk/position.limits.ts:215-228 | The price taken is the order's own if positive, else the mark of the first position in the instrument, else 0. |
| PositionLimits.QuantityInFigures | security/risk/position.limits.ts:88-112 | The quantity check passes exactly if what is held, with a buy added or a sale taken off, is at most the limit in size. |
| PositionLimits.NotionalInFigures | security/risk/position.limits.ts:114-146 | The same for the worth held and quantity times price, against the limit times price, while the price is positive. |
| PositionLimits.TotalInFigures | security/risk/position.limits.ts:148-169 | The portfolio check passes exactly if the total, with a buy's quantity times price added, is at most the limit. |
| PositionLimits.BookingKeepsLimits | security/risk/position.limits.ts:88-228 | A passed order, booked at its positive estimated price, keeps the portfolio long and within every quantity limit and the total limit. |
| PositionLimits.PassedRunKeepsLimits | security/risk/position.limits.ts:35-228 | So does any run of such orders. |
| PositionLimits.SafeAtMarkIff | security/risk/position.limits.ts:215-228 | A buy passed at its estimated price is safe under every notional limit at another mark exactly if that mark is no higher. |
| KillSwitches.KillSwitch.Trigger | security/risk/kill.switch.ts:68-102 | Adds exactly this scope to those halted. |
| KillSwitches.KillSwitch.IsActive | security/risk/kill.switch.ts:104-126 | Active exactly if this scope or the global one is halted. |
| KillSwitches.KillSwitch.Reset | security/risk/kill.switch.ts:128-155 | Only the admin lifts a halt, and only of this scope. |
| KillSwitches.KillSwitch.Middleware | security/risk/kill.switch.ts:157-215 | A request passes exactly if neither the global scope nor the user's nor the strategy's is halted. |
| LossMonitors.LossMonitor.Update | security/risk/loss.monitor.ts:44-121 | The stored watermark stays the largest value since it was cleared, the stored drawdown that of the latest, and the user is halted exactly on a breach. |
| LossMonitors.LossMonitor.GetDrawdown | security/risk/loss.monitor.ts:123-129 | The drawdown of the latest value from the largest since clearing. |
| LossMonitors.LossMonitor.ResetWatermark | security/risk/loss.monitor.ts:131-136 | Forgets the user's values. |
| LossMonitors.PositiveThresholdBreaches | security/risk/loss.monitor.ts:54-89 | For a positive threshold the three branches trigger exactly when the drawdown left behind reaches it. |
| LossMonitors.DrawdownInFigures | security/risk/loss.monitor.ts:70-77 | The drawdown is at least t exactly if 100 times what is missing of a positive peak is at least t times the peak; it is 0 for any other peak. |
| LossMonitors.BreachInFigures | security/risk/loss.monitor.ts:70-121 | An update at or below a positive peak breaches exactly if threshold percent of the peak are missing. |
| RiskEngines.RiskEngine.Evaluate | security/risk/risk.engine.ts:62-158 | The verdict, the risk level, every block reason in order, each breaker queried once, and the new halted scopes and values, as one step of the machine that the engine, the kill switch and the monitor form. |
| RiskEngines.RiskEngine.CheckKillSwitch | security/risk/risk.engine.ts:162-177 | Active exactly if the global, the user's or the strategy's scope is halted. |
| RiskEngines.RiskEngine.CheckCircuitBreakers | security/risk/risk.engine.ts:179-195 | Queries all three breakers and names the open ones in order. |
| RiskEngines.OpenReasonsNamed | security/risk/risk.engine.ts:179-195 | Each open breaker is named once, in the order velocity, error rate, loss. |
| RiskEngines.BaseRiskLevels | security/risk/risk.engine.ts:197-212 | Placing and modifying orders and closing positions start at MEDIUM, every other action at LOW. |
| RiskEngines.RiskEngine.CollectBlockReasons | security/risk/risk.engine.ts:66-97 | The reasons in order: the kill switch, the breakers open after the query, the limits the order would break with their figures; and the risk level collected. |
| RiskEngines.ElevateRisk | security/risk/risk.engine.ts:214-223 | The more severe of two levels. |
| RiskEngines.BreachBlocksUntilReset | security/risk/risk.engine.ts:62-177 | For a positive threshold, after an evaluation that leaves the drawdown at or above it, none is approved for that user until the admin resets the user's switch. |
| RiskEngines.HaltInFigures | security/risk/loss.monitor.ts:70-121 | Over every run an evaluation at or below a positive peak halts the user exactly if threshold percent of that peak are missing. |
| RiskEngines.NoHaltOtherwise | security/risk/loss.monitor.ts:54-77 | For a positive threshold a first value, a new high and a peak that is not positive halt nobody. |
| RiskEngines.BreachBlocksIff | security/risk/loss.monitor.ts:54-89 | That holds over all runs exactly if the threshold is positive; the config also admits 0. |
| RiskEngines.HaltPersists | security/risk/kill.switch.ts:68-155 | A halted user stays halted, whatever happens, until the admin's reset of that scope. |
| RiskEngines.ValuesAreThoseSinceCleared | security/risk/loss.monitor.ts:44-136 | The watermark ranges over exactly the values evaluated since it was last cleared. |
| RiskEngines.HaltHasCause | security/risk/loss.monitor.ts:87-120 | A user is halted only by hand or by an evaluation that breached the threshold. |
| AuditLog.HmacChain.VerifyChain | security/audit/hmac.chain.ts:44-67 | Valid exactly if every entry carries its own HMAC and that of its predecessor; otherwise the least bad index. |
| AuditLog.AuditLogger.Log | security/audit/audit.logger.ts:66-94 | With writes failing at will, what was written stays a good chain and the link field stays in step with it. |
| AuditLog.SliceIsGood | security/audit/hmac.chain.ts:44-67 | Every contiguous slice of a good chain is good by itself. |
| AuditLog.LastHmacPinsChain | security/audit/hmac.chain.ts:25-67 | Two good chains of one length with the same last HMAC agree on every entry's canonical form, unless the forms at that position or a later one are a collision of the HMAC. |
| AuditLog.CanonicalFormKeeps | security/audit/hmac.chain.ts:71-74 | Equal canonical forms fix which properties are present and every scalar among them. |
| AuditLog.ArraysKeepItems | security/audit/hmac.chain.ts:71-74 | An array in an entry keeps its length and its items in order, undefined ones as null. |
| AuditLog.NestedChangeUnnoticedIff | security/audit/hmac.chain.ts:71-74 | A change of one property of a nested object leaves the canonical form the same exactly if its name is not also a top-level key, or the new value looks like the old one there. |
| AuditLog.ReadBackVerifiesIff | security/audit/hmac.chain.ts:33-37 | Unless its form and that of its read-back are a collision, an entry that verifies also verifies after a round trip through JSON exactly if no kept nested object shows a name that was undefined at the top. |
| AuditLog.ReadBackFormSameIff | security/audit/hmac.chain.ts:71-74 | The round trip keeps the canonical form itself under exactly that condition, whatever the HMAC. |
| AuditLog.ReadBackCanFail | security/audit/hmac.chain.ts:33-37 | An entry with every property that log writes, without a user but with a payload that mentions one, verifies after the round trip only if its two forms collide. |
| AuditLog.LogWithoutUser | security/audit/audit.logger.ts:66-94 | The logger writes that entry: it verifies, and once read back only if the two forms collide. |
| AuditLog.CompleteEntriesReadBack | security/audit/hmac.chain.ts:33-37 | With every optional property present the round trip always verifies, whatever the HMAC. |
| AuditLog.ShorterListIff | security/audit/hmac.chain.ts:71-74 | Dropping names from the property list changes the projection exactly when some kept object shows one of them. |
| TradeProfiles.ComputeProfile | security/anomaly/strategy.drift.detector.ts:89-136 | The profile is a function of the counts, the first and last times per instrument and the total size. |
| TradeProfiles.SumHoldTimes | security/anomaly/strategy.drift.detector.ts:114-126 | Over the sorted trades the gaps add up to last minus first per instrument, and there are trades minus instruments of them. |
| TradeProfiles.FirstAndLast | security/anomaly/strategy.drift.detector.ts:109-126 | Those first and last times are attained and bound every trade on the instrument. |
| TradeProfiles.CountsAddUp | security/anomaly/strategy.drift.detector.ts:99-105 | The instrument counts add up to the number of trades, and there are no more instruments than trades. |
| TradeProfiles.CountIs | security/anomaly/strategy.drift.detector.ts:99-105 | The count of an instrument is the number of trades on it. |
| TradeProfiles.ProfileInFigures | security/anomaly/strategy.drift.detector.ts:99-136 | The average order size times the trades is the sum of size times price; the average hold time times the gaps is, in minutes, the time from first to last trade summed over the instruments. |
| TradeProfiles.ProfileIgnoresOrder | security/anomaly/strategy.drift.detector.ts:89-136 | The profile is the same for every permutation of the trades. |
| StrategyDrift.ChiSquaredDistance | security/anomaly/strategy.drift.detector.ts:60-77 | In whatever order the keys are visited, the sum is that of one term for each key. |
| StrategyDrift.NormalizeDistribution | security/anomaly/strategy.drift.detector.ts:79-87 | Every value divided by the total, or the map itself when the total is 0. |
| StrategyDrift.NormalizedIsDistribution | security/anomaly/strategy.drift.detector.ts:79-87 | Non-negative values with a positive total become non-negative values that sum to 1. |
| StrategyDrift.TermInFigures | security/anomaly/strategy.drift.detector.ts:60-77 | The term of a key with weight, times that weight, is the squared difference of its two values; a key without weight adds 0. |
| StrategyDrift.DistanceIsLackOfOverlap | security/anomaly/strategy.drift.detector.ts:60-77 | The distance of non-negative maps is their totals less four times the overlap, the sum of x * y / (x + y) over the keys of both. |
| StrategyDrift.DistanceIsZeroIffAlike | security/anomaly/strategy.drift.detector.ts:60-77 | For non-negative maps the distance is non-negative, and 0 exactly if they agree everywhere. |
| StrategyDrift.DistanceIsMaximalIffDisjoint | security/anomaly/strategy.drift.detector.ts:60-77 | It is at most the two totals together, and that much exactly for disjoint supports. |
| StrategyDrift.DistributionDistance | security/anomaly/strategy.drift.detector.ts:60-87 | Between distributions it is symmetric, lies in [0, 2], is 0 only for equal and 2 exactly for disjoint ones. |
| StrategyDrift.DistributionOverlap | security/anomaly/strategy.drift.detector.ts:60-87 | Between distributions it is 2 less four times the overlap. |
| StrategyDrift.StrategyDriftDetector.RecordTrade | security/anomaly/strategy.drift.detector.ts:158-184 | The stored trades become those of the last 30 days, under a new expiry; over the whole history they are what is at most 30 days old of the trades since the last pause longer than the TTL, and the stored profile is theirs. |
| StrategyDrift.RecordingKeeps | security/anomaly/strategy.drift.detector.ts:158-172 | Filtering at each recording amounts to one filter, at the last recording, of all the trades since the last pause. |
| StrategyDrift.LastThirtyDaysIs | security/anomaly/strategy.drift.detector.ts:165-170 | Of each trade every copy at most 2592000000 ms old is kept and no other. |
| StrategyDrift.NothingForgottenIff | security/anomaly/strategy.drift.detector.ts:165-172 | Over every run the last 30 days of all trades recorded are kept whole, exactly if the TTL is at least 30 days. |
| StrategyDrift.StrategyDriftDetector.Check | security/anomaly/strategy.drift.detector.ts:186-258 | The score is the unclamped weighted drift from the trades recorded and lies in [0, 1]; the reasons with their figures; nothing without a baseline. |
| StrategyDrift.Compare | security/anomaly/strategy.drift.detector.ts:198-257 | For any baseline, the clamped score, the verdict and the reasons. |
| StrategyDrift.DeviationInFigures | security/anomaly/strategy.drift.detector.ts:216-238 | A deviation of positive averages, times the baseline, is their difference; it is 0 where either is not positive. |
| StrategyDrift.DriftInFigures | security/anomaly/strategy.drift.detector.ts:204-241 | In points of a hundred: 20 for each unit of distance, up to 35 for the size and up to 25 for the hold time. |
| StrategyDrift.ClampsChangeNothing | security/anomaly/strategy.drift.detector.ts:204-243 | For a baseline computed from trades neither the clamp on the instrument score nor that on the composite score changes a value. |
| StrategyDrift.SameTradesShowNoDrift | security/anomaly/strategy.drift.detector.ts:186-258 | The baseline's own trades, in any order, have score 0 and no reasons. |
| ChatStream.ChatReader.ReadStream | apps/web/components/ChatPanel.tsx:149-186 | Any chunking of the text gives the events, text, last error and leftover buffer of splitting the whole text once. |
| ChatStream.ChatReader.HandleEvent | apps/web/components/ChatPanel.tsx:158-185 | The effect of one event on the text and the error. |
| ChatStream.NamedEventDoes | apps/web/components/ChatPanel.tsx:158-185 | What an event of each name does to text and error, whether its payload parses or not; end and an empty payload do nothing. |
| ChatStream.LinesCombine | apps/web/components/ChatPanel.tsx:161-164 | Payloads of several data lines follow one another; of several event lines the last counts. |
| ChatStream.OtherLinesAreIgnored | apps/web/components/ChatPanel.tsx:161-164 | A line that starts with neither field name does nothing. |
| ChatStream.SplitIncrementally | apps/web/components/ChatPanel.tsx:155-157 | Splitting a + b gives the events of a, then those of a's remainder followed by b. |
| ChatStream.SplitInvertsJoinedIff | apps/web/components/ChatPanel.tsx:155-157 | Events written one after another are read back as they were exactly if each can be framed. |
| ChatStream.AnswerArrives | apps/api/src/ai-agent/ai-agent.controller.ts:26-29 | What the server writes for a complete answer, cut in any way, is read as exactly its pieces, without error, with an empty buffer. |
| ChatStream.FailureArrives | apps/api/src/ai-agent/ai-agent.controller.ts:26-31 | For a failed answer the pieces are kept and its message is the stream error. |
| AnomalyFilters.AnomalyFilter.Check | security/market-data/anomaly.filter.ts:58-115 | Judges by the mean and deviation of the last anomalyWindowSize prices checked, then the window is again the last ones, newest first. |
| AnomalyFilters.MeanBalancesIff | security/market-data/anomaly.filter.ts:79-80 | The mean is the one number from which the differences of the entries cancel out. |
| AnomalyFilters.VarianceInFigures | security/market-data/anomaly.filter.ts:80-83 | The variance times n is the sum of the squares less n times the square of the mean. |
| AnomalyFilters.VerdictInFigures | security/market-data/anomaly.filter.ts:65-85 | A price is anomalous exactly if its squared distance from the mean exceeds the squared multiplier times the variance, with two entries or more that are not all alike. |
| AnomalyFilters.FewOutliers | security/market-data/anomaly.filter.ts:79-85 | Strictly fewer than n / k^2 of n entries lie more than k standard deviations from their mean. |
| AnomalyFilters.RequotedVerdict | security/market-data/anomaly.filter.ts:65-85 | Rescaling by a positive factor, or shifting, the window and the price keeps the verdict. |
| AnomalyFilters.UnitDoesNotMatter | security/market-data/anomaly.filter.ts:58-115 | Over a whole run it changes no verdict. |
| Luhn.PassesLuhn | security/input/pii.scrubber.ts:31-45 | The backwards loop accepts exactly the digit strings whose weighted sum is a multiple of 10. |
| Luhn.PassesFromTheRightIff | security/input/pii.scrubber.ts:31-45 | Read from the right, the last digit counts as it is and every second one doubled, less 9 above 9; the string passes exactly if that sum is a multiple of 10. |
| Luhn.SubstitutionIsCaught | security/input/pii.scrubber.ts:31-45 | Changing one digit of a passing string makes it fail, at any length. |
| Luhn.TranspositionIsCaughtExceptZeroNine | security/input/pii.scrubber.ts:31-45 | So does swapping neighbours, unless they are equal or 0 and 9. |
| TokenViews.EmotionalIntelService.TrackTokenView | apps/api/src/agents/emotional-intel.service.ts:82-94 | Returns the views of the key since it last entered the map, and keeps the map the 1000 most recent keys, oldest first. |
| TokenViews.EmotionalIntelService.GetViewCount | apps/api/src/agents/emotional-intel.service.ts:96-98 | That count while the key is held, 0 otherwise. |
| TokenViews.HeldKeys | apps/api/src/agents/emotional-intel.service.ts:77-94 | At most 1000 keys are held, and exactly those with fewer than 1000 others viewed since. |
| TokenViews.ViewKeysApart | apps/api/src/agents/emotional-intel.service.ts:83 | Keys tell users and tokens apart as long as neither user id goes on after the other and a colon. |
| TokenViews.FewKeysCountAll | apps/api/src/agents/emotional-intel.service.ts:82-94 | With at most 1000 different keys so far the count of a key is the number of its views. |
| TokenViews.ViewKeeps | apps/api/src/agents/emotional-intel.service.ts:82-94 | One more view keeps the order, the membership and the counts. |
| SigningService.SortKeysDeep | security/crypto/signing.service.ts:22-37 | The loop computes the canonical form. |
| SigningService.CanonicalObject | security/crypto/signing.service.ts:22-37 | An object's form has its keys in ascending order, with canonical values. |
| SigningService.LessIff | security/crypto/signing.service.ts:32 | The order of keys: by the first character in which they differ, a prefix before its continuations. |
| SigningService.CanonicalIffSame | security/crypto/signing.service.ts:18-37 | Two payloads get the same form exactly if they differ only in property order, in properties named `__proto__` and in what objects are besides their own properties, at some depths. |
| SigningService.CanonicalIsIdempotent | security/crypto/signing.service.ts:22-37 | The form of a form is itself. |
| SigningService.PathsAreKept | security/crypto/signing.service.ts:22-37 | Every path leads to the form of what it led to, except paths through a property named `__proto__`. |
| SigningService.ProtoIsForgotten | security/crypto/signing.service.ts:31-34 | A property named `__proto__` is lost, so payloads that differ in it are signed alike. |
| SigningService.StateIsForgotten | security/crypto/signing.service.ts:31-36 | Two objects with the same own properties are signed alike, whatever else they are: dates all become an empty object. |
| SetNames.StripIndexIsLeftmostMatch | apps/web/lib/wallet-groups.ts:117-118 | What is stripped from a label is the leftmost suffix of separators and digits, or nothing. |
| SetNames.NumberedLabel | apps/web/lib/wallet-groups.ts:113-120 | The set of "prefix index" for every prefix and index. |
| SetNames.NumberedLabelNamesItsPrefixIff | apps/web/lib/wallet-groups.ts:109-120 | It is the prefix itself exactly if that is nonempty without leading space or trailing separator. |
| SetNames.OnePrefixOneSetIff | apps/web/lib/wallet-groups.ts:12-14 | Two indices of one prefix fall into one set exactly if something of the prefix is left after stripping. |
| SetNames.SeparatedLabel | apps/web/lib/wallet-groups.ts:117-118 | A space, tab, hyphen, underscore or hash between prefix and index is stripped with the index. |
| SetNames.UnnumberedLabel | apps/web/lib/wallet-groups.ts:113-120 | A label not ending in a digit names its own set; one of spaces only, or none, names no set. |
| SetNames.DocumentedLabels | apps/web/lib/wallet-groups.ts:109-112 | The three documented examples. |
| WalletValue.WalletAddsUpIff | apps/web/lib/wallet-groups.ts:84-101 | A wallet's figures on the single networks add up to its figure on all of them exactly if its slices add up to its usd. |
| WalletValue.WalletUsdOnNetwork | apps/web/lib/wallet-groups.ts:84-101 | On one network: a Solana wallet counts on solana only, an EVM wallet with its first slice there, and 0 where no slice names the network or the balance failed or is missing. |
| WalletValue.EachSliceCounts | apps/web/lib/wallet-groups.ts:100 | With distinct slices every one of them is the figure on its own network. |
| WalletValue.WalletUsdOverAll | apps/web/lib/wallet-groups.ts:90-91 | Over all networks the figure is the balance's usd, or 0 without a balance or with a failed one. |
| WalletValue.NetworkTotalsAddUp | apps/web/lib/wallet-groups.ts:84-101 | When they do for every EVM balance, the single-network totals add up to the all-networks total. |
| WalletGroups.GroupWallets | apps/web/lib/wallet-groups.ts:133-234 | In every mode and scope: a partition of the wallets, with totals and funded counts that add up to the per-wallet figures; ranked richest first with the loose group last exactly if no set called `__loose` stands beside loose wallets. |
| WalletGroups.Build | apps/web/lib/wallet-groups.ts:140-180 | The group's total, funded count, backup flag and chains, richest first, are those of its wallets. |
| WalletGroups.Tally | apps/web/lib/wallet-groups.ts:148-167 | The loop's sums, flags and holdings per chain. |
| WalletGroups.ChainIsHeldIff | apps/web/lib/wallet-groups.ts:156-166 | A group's wallets hold a chain exactly if one of them has a positive Solana balance or a slice on it with native funds. |
| WalletGroups.GroupBySet | apps/web/lib/wallet-groups.ts:204-225 | One group for each name with at least two wallets, holding them in order, and one for all the others. |
| WalletGroups.GroupByChain | apps/web/lib/wallet-groups.ts:186-203 | One group for each wallet family that has wallets. |
| WalletGroups.PartitionAddsUp | apps/web/lib/wallet-groups.ts:133-234 | Whatever the grouping, a partition's totals and funded counts are those of the wallets. |
| WalletGroups.TotalsOnOneNetwork | apps/web/lib/wallet-groups.ts:133-234 | Under one network every group totals what its wallets have there, wallet by wallet, and so do all groups together; the funded wallets are those with a positive figure there. |
| WalletGroups.SortRanks | apps/web/lib/wallet-groups.ts:227-233 | With distinct keys the sort leaves richest first, equal totals by title, the loose group last. |
| WalletGroups.ClashIsNotRanked | apps/web/lib/wallet-groups.ts:227-233 | With such a set no order of the groups is a ranking. |
| WalletGroups.KeysAreApartIff | apps/web/lib/wallet-groups.ts:223-232 | Group keys are distinct exactly if no set called `__loose` stands beside loose wallets. |
| WalletGroups.KeysCanClash | apps/web/lib/wallet-groups.ts:223-224 | Three wallets for which the keys clash. |
| WalletGroups.ScopedGroupsAddUp | apps/web/lib/wallet-groups.ts:133-234 | The group totals on the single networks add up to those on all networks, under the same condition as for wallets. |
| FeedConsensus.FeedConsensus.Check | security/market-data/feed.consensus.ts:69-150 | The sources listed, each once with its stored price, exactly those known whose key is fresh; the divergence of highest from lowest and the verdict; agreement with fewer than two. |
| FeedConsensus.FeedConsensus.Collect | security/market-data/feed.consensus.ts:82-99 | Lists every source heard in the last 30 s, and afterwards knows exactly the listed sources of the instrument. |
| FeedConsensus.FreshFor | security/market-data/feed.consensus.ts:53-76 | A report is fresh for 30 s, the last millisecond included. |
| FeedConsensus.DivergenceInFigures | security/market-data/feed.consensus.ts:110-118 | Over a positive lowest price the test finds divergence exactly if more than threshold percent of it lie between lowest and highest; against 0 it takes 100. |
| FeedConsensus.LiveIffHeardRecently | security/market-data/feed.consensus.ts:74-99 | When no other instrument reported can share its keys, the live sources are exactly those heard in the last 30 s, at their last price. |
| FeedConsensus.InstrumentsShareAKeyIff | security/market-data/feed.consensus.ts:75 | Two instruments can share a key exactly if one goes on after the other and a colon. |
| FeedConsensus.ListStaleSource | security/market-data/feed.consensus.ts:69-99 | A run for any two instruments that share a key: a source not heard for 40 s is listed, at the price that the other instrument's source reported. |
| FeedConsensus.KeysCanCollide | security/market-data/feed.consensus.ts:75 | Two instruments that share a key. |
| FeedConsensus.ExtremesDivergeIff | security/market-data/feed.consensus.ts:110-118 | What the test of highest against lowest finds, for a positive, zero and negative lowest price. |
| FeedConsensus.ExtremesTestIsPairwiseIff | security/market-data/feed.consensus.ts:110-118 | It agrees with the pairwise test on all lists with one lowest price exactly if that is positive, or 0 under a threshold below 100. The guard that calls it admits positive prices only (security/market-data/market.data.guard.ts:84). |
| FeedConsensus.LowPriceHidesDivergence | security/market-data/feed.consensus.ts:113-114 | For every other lowest price and threshold, a list on which the two differ. |
| FeedConsensus.ZeroHidesDivergence | security/market-data/feed.consensus.ts:113-114 | For example a zero price under a threshold of 100, the highest that the config admits. |
| DeadMansSwitches.DeadMansSwitch.CheckHeartbeat | security/secrets/dead.mans.switch.ts:114-164 | Triggers the global switch and stops exactly if the last heartbeat is more than two timeouts ago or never was, and then at most half a timeout late. |
| DeadMansSwitches.DeadMansSwitch.RecordHeartbeat | security/secrets/dead.mans.switch.ts:73-84 | Puts the lapse two timeouts from now and leaves the timer alone. |
| DeadMansSwitches.DeadMansSwitch.Start | security/secrets/dead.mans.switch.ts:86-102 | Starts the timer once, half a timeout ahead. |
| ApiClients.CachedAnswerAgrees | apps/web/lib/api.ts:144-151 | A 304 resolved from the cache says what an unconditional request would have been answered; any other reply is that answer. |
| ApiClients.OutcomeByStatus | apps/web/lib/api.ts:114-194 | A caller gets data exactly for a status from 200 to 299, none for 204, and that of the retry after a 401 outside /auth/ with a new token. |
| ApiClients.StoredKeeps | apps/web/lib/api.ts:176-186 | Storing a reply, with eviction, keeps every entry's body the one its tag stands for. |
| ApiClients.StoredIsBounded | apps/web/lib/api.ts:180-183 | Over a run the cache stays within its limit unless the empty path is cached. |
| ApiClients.StoredOverflowsIff | apps/web/lib/api.ts:176-186 | A storing takes the cache over its limit exactly if it is full, its oldest entry has the empty path and the path stored is new. No caller in the web app requests the empty path. |
| ApiClients.EmptyPathUnbounds | apps/web/lib/api.ts:180-183 | From then on it grows with every new path. |
| ApiClients.ApiClient.GetPath | apps/web/lib/api.ts:114-194 | A GET through the cache, with its retry after a 401, gives what it would give without one, whatever was requested before; and what is cached afterwards. |
| ApiClients.ApiClient.Write | apps/web/lib/api.ts:187-191 | A successful write empties the cache, a failing one leaves it. |
| ApiClients.Refresher.RefreshAccessToken | apps/web/lib/api.ts:85-112 | At most one refresh is outstanding; a caller joins it or starts one with the token at hand, for which no usable pair ever arrived. |
| ApiClients.Refresher.Settle | apps/web/lib/api.ts:91-109 | Everyone waiting gets one answer; a usable pair replaces the exchanged token, any other answer leaves it, whether or not the server exchanged it. |
| ApiClients.PresentAgain | apps/web/lib/api.ts:85-112 | After a lost answer the client presents the same token again, though the server has exchanged it. |

## Left out

- Cryptography, key stores and signatures (HMAC, AES, Ed25519, RSA, jose, TOTP, KMS) are functions with stated laws.
- Interleavings inside one asynchronous call: the code takes no locks, so the at-most-once results hold for whole calls.
  For the token refresh the overlap of callers is modelled; overlapping GETs are not, as a 304 may then meet another body.
- The text of JSON: `canonicalize` in both services is modelled up to the value that is printed. The two orders that text
  has beyond that (integer-like keys first, UTF-16 code units against code points), values that it leaves out or prints
  alike (functions, `NaN`), and a `toJSON` of a logged value's own are not modelled.
- `timingSafeEqual` throws for signatures of equal length in characters but not in bytes; approval compares strings instead.
- `deriveResultStatus`, `extractActionName` and `extractParameters` of the audit logger choose field values only.
- Calls of `log` that overlap, and the file writer.
- Redis connection errors; only the dead man's switch has a failing read. `Number(String(x))` gives x back, and NaN never arises.
- Each key family has its own store. `feed:consensus:sources:` followed by an instrument can also be the price key of an
  instrument named `sources`; that clash is not modelled.
- QuotaLimits.DayBoundIsMet: above 43156 orders a day the limit of the second may bind first; the most that such a day holds is bounded but not stated exactly.
- PositionLimits.BookingKeepsLimits: how a filled order enters the portfolio is an assumption of the model, as the execution side is outside these files.
- RateLimiters.WindowBound: random members of the sorted set are assumed distinct, as the identifiers drawn for them are.
- `set` with a TTL, where the drift detector uses it, honours the TTL; for approvals both readings are proved.
- TradeProfiles.ComputeProfile: instruments named like a property of `Object.prototype`, and timestamps that are no dates, are not modelled.
- WalletGroups.GroupWallets: a missing `usd` figure, which the types exclude, counts as a number here; `chainTitle` of a name on `Object.prototype` is not modelled.
- ChatStream.ChatReader.ReadStream: the byte decoder, the reader's cancellation and React's state updates; chunks are decoded text.
- DeadMansSwitches.DeadMansSwitch.CheckHeartbeat: the timer fires at its exact period; a failing kill switch and several processes are not modelled.
- ApiClients.ApiClient.GetPath: parsing of bodies, headers, network errors, and the refetch after a 304 without a cached entry, which only overlapping requests reach.
- ApiClients.Refresher.Settle: the server is assumed to hand out refresh tokens that were never exchanged; logins during a refresh and other tabs are not modelled.
- The family key of rotated tokens is deleted but never written; the deletion is modelled and has no effect on the results.
- Alerts, logs, message texts, HTTP middleware responses, and the breaker's `isOpen` beyond its query.
- `LayeringDetector`, `DeviceTrustService`, `ShortSellControl`, `DuplicateDetector` and `MfaGate`: easier versions of the properties above, or counters that expire independently.
- Regular expressions of the PII scrubber and injection scoring, zod schemas, the haversine distance, React components, controllers and database workers.
