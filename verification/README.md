# Parking-lot cost estimator, modelled in Dafny

The estimator is a single Earth Engine script (`lot_cost_estimator.js`). The
user draws polygons on satellite imagery and presses "Compute Area". The
script then shows the area and perimeter of the union of the polygons, and a
cost breakdown derived from the area with fixed rates. The platform does the
geometry. The script's own logic is two small pieces, and both are modelled
here:

- **The cost formula** (`CostModel.Estimate`). From the rounded area A in m²
  it derives:
  - labor hours = round(A / 100)
  - equipment hours = round(hours / 10)
  - material = $10·A
  - labor = $50·hours
  - equipment = $70·equipment hours
  - total = 1.1 × (material + labor + equipment)

  All of this is exact arithmetic over naturals. `RoundDiv` computes
  `round(a / n)` as `(a + n/2) / n`. The total is held in tenths of a dollar,
  so it equals 11 × the subtotal. `Rounding.RoundDivMatchesRoundReal` and
  `CostModel.EstimateMatchesPlatform` prove that these integer forms equal the
  real-valued quantities the script asks the platform for.
- **The page session** (`DrawingSession`). A session holds the collection of
  drawn polygons, the result panel and the cost panel. Three operations change
  it:
  - `onDraw` appends a polygon.
  - "Erase Last" replaces the whole collection with an empty one and clears
    both panels. Despite its label, it does not remove just the last polygon.
  - "Compute Area" either warns that nothing is drawn or fills both panels.

  Polygons are an opaque type. The platform's area and perimeter of their
  union enter as a function parameter, `measure`.

  One detail of the source is kept. When nothing is drawn, "Compute Area"
  clears and refills only the result panel and leaves the cost panel alone.
  `ComputeWithNothingDrawn` proves that in every session the page can reach,
  the cost panel is already blank whenever the collection is empty. So the
  warning really is the only thing on show.

The "Go to Location" button is modelled with text parsing abstracted away. A
box that does not parse as a number is `None`.

Module layout:

- `rounding.dfy`: `Rounding`, nearest-integer rounding in real and integer form.
- `cost_model.dfy`: `CostModel`, the rates and the breakdown.
- `drawing_session.dfy`: `DrawingSession`, the collection, the panels and the
  three handlers, plus runs of user actions.
- `navigation.dfy`: `Navigation`, the "Go to Location" handler.
- `wrappers.dfy`: `Wrappers`, the `Option` type.

The source comment calls the $10 rate "per ton", but the code multiplies it
by the area in m². The model follows the code.

## Model

| member | source | states |
|---|---|---|
| Rounding.RoundReal | lot_cost_estimator.js:62-63 | the rounded area (or perimeter) is the integer nearest to the platform's value, ties going up |
| Rounding.RoundDiv | lot_cost_estimator.js:71-72 | `round(a / n)` over naturals: twice the distance from `a` to `n·r` is at most `n`, ties going up |
| Rounding.RoundDivCharacterized | lot_cost_estimator.js:71-72 | `RoundDiv(a, n)` is the one and only integer nearest to `a / n` (both directions) |
| Rounding.NearestMultipleIsNearestHalfUp | lot_cost_estimator.js:71-72 | the integer nearness relation on `a` and `n` holds exactly when the real nearness relation holds on `a / n` |
| Rounding.RoundDivMatchesRoundReal | lot_cost_estimator.js:71-72 | the integer computation equals the platform's rounding of the real quotient `a / n` for every `a` and every `n > 0` |
| Rounding.RoundDivMonotone | lot_cost_estimator.js:71-72 | a larger numerator never rounds to a smaller integer |
| Rounding.NearestMultipleUnique | lot_cost_estimator.js:71-72 | at most one integer is nearest to `a / n` |
| CostModel.Estimate | lot_cost_estimator.js:65-77 | material is 10·A; hours satisfy 100·h − 50 ≤ A < 100·h + 50; equipment hours satisfy 10·e − 5 ≤ h < 10·e + 5; labor is 50·h and equipment 70·e; the total in tenths is 11 × the subtotal, never below it, and zero exactly when A is zero |
| CostModel.EstimateMatchesPlatform | lot_cost_estimator.js:69-77 | both hour counts are the platform's rounding of the real quotients A/100 and hours/10, and the total in dollars is exactly 1.1 × the subtotal |
| CostModel.EstimateMonotone | lot_cost_estimator.js:71-77 | every figure (hours, equipment hours, each cost, the total) is non-decreasing in the area |
| CostModel.EstimateThresholds | lot_cost_estimator.js:71-72 | 49 m² bills no labor hour and 50 m² bills one; equipment hours start at 450 m², where the total is $5302.0 (53020 tenths) |
| DrawingSession.Draw | lot_cost_estimator.js:46-48 | the collection grows by exactly one, keeps every earlier polygon in place and ends with the new one; the panels do not change |
| DrawingSession.EraseLast | lot_cost_estimator.js:103-109 | whatever the prior contents, the collection is empty and both panels are blank |
| DrawingSession.Step | lot_cost_estimator.js:112-127 | each action reaches its handler: a finished drawing (`onDraw`, line 46) appends its polygon and leaves the panels alone, "Erase Last" empties the collection and blanks both panels, "Compute Area" leaves the collection alone and shows the warning exactly when nothing is drawn; a `Drew` action stands for a drawing the tool has finished, since pressing "Draw Polygon" (line 115) only starts the tool |
| DrawingSession.ComputeArea | lot_cost_estimator.js:51-77 | the collection is never changed; the warning is shown exactly when nothing is drawn, and then the cost panel is left as it was; otherwise the panels show the nearest integers to the platform's area and perimeter and the breakdown for that area |
| DrawingSession.RunDrawn | lot_cost_estimator.js:46-109 | after any sequence of actions, the collection holds exactly the polygons drawn since the last erase, in drawing order, preceded by the earlier contents only if nothing was erased |
| DrawingSession.AfterLastErase | lot_cost_estimator.js:103-104 | the actions after the last erase form a suffix that holds no erase and is preceded by an erase unless it is the whole run |
| DrawingSession.ComputeWithNothingDrawn | lot_cost_estimator.js:52-59 | in every reachable session, a cost breakdown is on show exactly when an area is, only for that area and only while something is drawn; so with nothing drawn, "Compute Area" yields only the warning, no figures, and an empty collection |
| DrawingSession.ComputeAfterErase | lot_cost_estimator.js:103-109 | "Compute Area" right after "Erase Last" always takes the no-polygon branch |
| DrawingSession.EraseLastIsDropLastOnlyUpToOne | lot_cost_estimator.js:102-104 | for every session, "Erase Last" leaves the same collection as removing only the last polygon (what the label on line 16 and the comment on line 102 describe) exactly when at most one polygon is drawn |
| Navigation.GoToLocation | lot_cost_estimator.js:29-40 | the map is re-centred at zoom 19 exactly when both boxes parse, on the typed latitude and longitude; otherwise only the warning is given |

## Left out

- Imagery loading and compositing (lines 2-4) is done by the platform and has no local logic.
- The union of the drawn polygons, and its area and perimeter (lines 61-63), are computed by the platform. They enter as the parameter `measure`, which must give non-negative reals. The perimeter is only rounded and shown.
- The `getInfo()` calls are remote evaluations. The model uses their values directly.
- UI panels, labels, buttons, styles and label texts (lines 10-24, 79-99, 111-153) are widget plumbing. A panel is modelled only by what it shows: nothing, the warning, the figures, or the breakdown.
- Map layers are not modelled. This covers the image layer that "Go to Location" and "Erase Last" add (lines 36, 105-106), the layer reset, and the initial centring (lines 152-153).
- The drawing tool keeps its own drawn shapes on the map. "Erase Last" does not clear them, and the model does not track them.
- `parseFloat` and `NaN` (lines 30-33) are float parsing. A box is given as its parse result, `None` for NaN. Inputs such as "Infinity", which parse to a non-NaN value, are not singled out.
- The warning printed to the console (line 38) is modelled only as the `InvalidCoordinates` outcome.
- Floating point is not modelled. The platform computes with doubles, so `multiply(1.1)` can display a total that differs in its last digits from the exact 1.1 × subtotal that the model holds in tenths. Areas beyond 2^53 m² would also lose precision.
- Rounding.RoundReal: the platform's `round()` is documented only as "nearest integer". The model resolves ties upwards. For non-negative inputs this agrees with rounding half away from zero, but not with rounding half to even.
- A remote evaluation (`getInfo`, line 85 onwards) that fails after both panels were cleared (lines 80-81) leaves both panels blank with polygons still drawn. `ComputeArea` never yields that state, because remote calls are taken to succeed.
- Only `onDraw` is registered (line 46). Editing or deleting a shape with the drawing tool's own controls leaves the collection holding the original geometry. The model has no such actions.
- Pressing "Draw Polygon" (line 115) only starts the drawing tool and changes nothing in the session. A `Drew` action stands for a drawing the tool has finished.
- DrawingSession.Initial: no contract. It only names the page's starting session (line 7 and the empty panels of lines 130-136). `EraseLast` and `ComputeWithNothingDrawn` state what matters about it.
