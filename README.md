# R-Logic position planner — Dafny model

This project models the two pieces of logic inside the R-Logic Streamlit
planner (`app.py`):

- **Position sizing** (module `PositionSizing`, `sizing.dfy`). From the account
  equity, the risk percentage (a slider limited to 0.1–5.0), the entry price,
  the stop-loss price, a fixed commission and a per-share slippage, the
  planner computes the risk amount `equity * risk / 100` and the per-share
  risk `(entry - stop) + slippage`. Only when the entry is above the stop does
  it compute a share count, the floor of
  `(riskAmount - commission) / riskPerShare`, and a cost, that count times the
  entry. Otherwise it shows an error and no position can be added. `Size`
  returns one of three outcomes. `Sized` carries the plan. `StopNotBelowEntry`
  is the error branch. `ZeroRiskPerShare` covers a stop below the entry whose
  gap a negative slippage of the same size cancels: the script then divides by
  zero and stops with `ZeroDivisionError`. The share count is not clamped, so
  it is negative when the commission exceeds the risk amount. A negative
  per-share risk, possible with a large negative slippage, is handled the way
  `math.floor` handles it.
- **Trade ledger** (module `TradeLedger`, `ledger.dfy`). The session's list
  of position records is a class `Ledger` with a `seq<Trade>` field. It is
  created empty. `AddPosition` runs the sizing and appends one record
  (`ticker`, `entry`, `stopLoss`, `qty`, `totalCost`, `riskAmount`) when the
  sizing succeeds. `OpenRiskMetric` gives the "total open risk", the sum of
  the risk amounts, and is present only when the ledger is not empty.
  `Clear` empties the ledger.

Prices and amounts are exact `real`s; the share count is an `int`, computed
with Dafny's `.Floor`, which is the mathematical floor that `math.floor`
computes. The widget values are plain parameters. The ledger is one object
that lives across operations.

In `app.py` the stop-loss price is a user input, not derived from the risk
percentage, and the share count subtracts the commission from the risk amount
and adds the slippage to the per-share risk; the model follows these
formulas.

## Model

| member | source | states |
|---|---|---|
| `PositionSizing.RiskAmount` | app.py:30 | the body is the definition equity * (risk / 100); its contract states that 100 times the result is equity * risk and that it is not negative for non-negative equity and risk |
| `PositionSizing.RiskPerShare` | app.py:31 | the body is the definition (entry - stop) + slippage; its contract states that removing the slippage leaves entry - stop and that it is positive when the stop is below the entry and the slippage is not negative |
| `PositionSizing.Size` | app.py:30-35 | a share count is produced if and only if entry > stop and the per-share risk is non-zero; the outcome is the error branch exactly when entry <= stop, a division by zero exactly when entry > stop and the per-share risk is zero, and otherwise a plan whose risk amount is equity * risk / 100, whose per-share risk is (entry - stop) + slippage, whose qty is the floor quotient of (riskAmount - commission) by that per-share risk, and whose cost is qty * entry |
| `PositionSizing.ZeroRiskNeedsNegativeSlippage` | app.py:31-34 | the division by zero under the guard happens only when the slippage is negative and equal to stop - entry |
| `PositionSizing.QtyCharacterised` | app.py:34 | for a positive per-share risk, qty * rps <= riskAmount - commission < (qty + 1) * rps, and qty is the only integer with that property |
| `PositionSizing.QtyNonNegativeIff` | app.py:34 | for a positive per-share risk, qty >= 0 exactly when the commission does not exceed the risk amount, so qty is negative otherwise |
| `PositionSizing.FloorQuotientOf` | app.py:34 | the floor of an exact quotient num / den satisfies the division-free floor bounds, with the inequalities reversed for a negative divisor |
| `PositionSizing.FloorQuotientUnique` | app.py:34 | any integer satisfying those floor bounds is the floor of num / den |
| `PositionSizing.RiskAmountWithinSlider` | app.py:18-30 | for non-negative equity and a risk within the slider's range 0.1–5.0, the risk amount lies between equity / 1000 and equity / 20 |
| `PositionSizing.DefaultInputsExample` | app.py:17-35 | the default inputs (equity 10000, risk 1, commission 5, slippage 0.01, entry 150, stop 145) size to risk 100, per-share risk 5.01, 18 shares and cost 2700 |
| `TradeLedger.NewTrade` | app.py:43-50 | the body is the definition of the record; its contract states that each field is the input or plan value of the same name, and that the record satisfies `Recorded` when the stop is below the entry and the cost is qty * entry; `NewTradeRecorded` characterises it for a successful sizing |
| `TradeLedger.NewTradeRecorded` | app.py:43-50 | the record built from a successful sizing holds the inputs' ticker, has its stop below its entry and cost = qty * entry, has risk amount * 100 = equity * risk, and has a non-negative risk amount when equity and risk are non-negative |
| `TradeLedger.TotalRiskAppend` | app.py:52-68 | appending one record raises the total open risk by exactly that record's risk amount |
| `TradeLedger.TotalRiskConcat` | app.py:68 | the total of two record lists placed one after the other is the sum of their totals |
| `TradeLedger.TotalRisk` | app.py:68 | the body is the definition, the sum of the risk amounts from the first record on; its contract states that the sum is not negative when no record's risk amount is; `TotalRiskAppend` and `TotalRiskConcat` characterise it |
| `TradeLedger.TotalRiskBoundsEach` | app.py:68 | when no record has a negative risk amount, each record's risk amount is at most the total |
| `TradeLedger.TotalRiskUniform` | app.py:49-68 | records that all carry the same risk amount r total to their number times r |
| `TradeLedger.Ledger.constructor` | app.py:9-10 | a new ledger is empty and valid |
| `TradeLedger.Ledger.AddPosition` | app.py:33-55 | the result is the sizing of the inputs; on success exactly one record, built from the inputs and the plan, is appended, the length grows by one and every earlier record is unchanged; otherwise the ledger is unchanged; the total open risk grows by the record's risk amount; every record keeps stop < entry and cost = qty * entry |
| `TradeLedger.Ledger.Clear` | app.py:71-72 | whatever the ledger held, it is empty afterwards and its total risk is 0 (the source offers the clear button only on a non-empty list; the model also allows it on an empty one, where it changes nothing) |
| `TradeLedger.Ledger.OpenRiskMetric` | app.py:62-69 | the metric is present exactly when the ledger is not empty, and then it is the sum of the risk amounts of all records |
| `TradeLedger.SessionExample` | app.py:9-72 | an example session: adding the default position shows a total open risk of 100, a second position whose stop equals its entry is refused, and after a clear the metric is hidden |

## Left out

- All Streamlit UI: page layout, titles, columns, sidebar widgets, info, success and error messages, the metric and table widgets, and `st.rerun`. Widget values are parameters.
- The pandas DataFrame built for display (app.py:64-65). The column sum at line 68 is modelled directly as the recursive `TotalRisk`.
- IEEE floating-point rounding. Amounts are exact reals, so `math.floor` of a float quotient rounded at an exact boundary can differ from the model.
- Streamlit's rerun and session-persistence semantics. The ledger is one object that lives across operations, and the button press is the call to `AddPosition` or `Clear`.
- The slider's 0.1 step and the unbounded number inputs. Any real is accepted as input, and the slider range is used only in `RiskAmountWithinSlider`.
- TotalRisk, TotalRiskBoundsEach: the non-negativity of the total holds only when every record's risk amount is non-negative. The source accepts negative equity, so this is conditional; `NewTradeRecorded` shows that non-negative equity and risk give a non-negative record.
- String handling: the f-string messages and `.upper()` on the ticker. The ticker is an opaque string stored as given.
- `ZeroDivisionError` is modelled as the outcome `ZeroRiskPerShare`. The model does not capture the traceback Streamlit shows, and it does not capture that the rest of the page is not drawn on that run.
