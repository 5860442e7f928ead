# smurff TensorData and Model, in Dafny

This project models two parts of the smurff Bayesian matrix/tensor factorisation engine and
proves properties of them:

- **TensorData** (`cpp/SmurffCpp/DataTensors/TensorData.cpp`) holds the observed entries of an
  N-mode tensor. Its constructors do three things:
  - build an `nnz x nmodes` coordinate table from a dense tensor (row-major odometer over the
    dimensions) or a sparse tensor (column by column);
  - build one *SparseMode* view per mode. A view groups the observations into hyperplanes, which
    are contiguous row ranges, by their coordinate in that mode;
  - offer reductions over view 0 (`sum`, `sumsq`, `var_total`, `train_rmse`), mode-checked lookups
    (`item`, `pos`) and the per-hyperplane sufficient statistics `getMuLambda`.
- **Model / SubModel** (`lib/smurff-cpp/SmurffCpp/Model.h`):
  - the latent-factor model has one `L x dim` factor matrix per mode, plus optional link matrices;
  - `predict(pos)` is the sum over latent rows of the product of the selected columns;
  - the `SubModel` view shifts every coordinate by an offset, and nested views add offsets;
  - feature-based prediction is `predict_latent` and `predict(mode, f)`.

Modules:

- `Status`: the error kinds and `Result`/`Option`.
- `Linalg`: vectors, matrices, sums, dot and elementwise products.
- `Enumeration`: the `PVecIterator` odometer, and `Unrank`/`Rank` as its specification.
- `SparseModes`: the SparseMode view, specified by `IsRotation` and built by `Rotate`.
- `Models`: `Model`, `SubModel`, `predict_latent`, `predict(mode, f)`.
- `TensorDatas`: the coordinate-table methods, the reductions and `getMuLambda`'s pieces. Its class
  `TensorData` has `const` fields `dims`, `nnz`, `Y` and the ghost observations `coords`/`vals`
  they were built from.

Values are mathematical reals, and every reduction is a sequential sum. The noise model's alpha
and its `sample` function are parameters: `alpha` and `noisy`. So is `sqrt`.

## Model

| member | source | states |
|---|---|---|
| `Enumeration.RankUnrank` | cpp/SmurffCpp/DataTensors/TensorData.cpp:19 | `Rank` and `Unrank` (the odometer's c-th multi-index) are inverse bijections between `[0, Product(dims))` and the in-bounds multi-indices, so every cell is enumerated exactly once |
| `Enumeration.First` | cpp/SmurffCpp/DataTensors/TensorData.cpp:19 | the iterator starts with a cell exactly when every dimension is positive, and that cell is in bounds with rank 0 |
| `Enumeration.Next` | cpp/SmurffCpp/DataTensors/TensorData.cpp:19 | `++it` stays in bounds; `NextIsSuccessor` states which cell it moves to |
| `Enumeration.FirstIsUnrankZero` | cpp/SmurffCpp/DataTensors/TensorData.cpp:19 | the iterator starts at the 0-th multi-index, and is done at once exactly when there are no cells |
| `Enumeration.NextIsSuccessor` | cpp/SmurffCpp/DataTensors/TensorData.cpp:19 | `++it` on the c-th multi-index gives the (c+1)-th, or done after the last: the iterator visits every cell once, in row-major order |
| `TensorDatas.DenseCoords` | cpp/SmurffCpp/DataTensors/TensorData.cpp:12-25 | the dense table has `Product(dims)` rows and `nmodes` columns, and row c is the c-th multi-index of the enumeration |
| `TensorDatas.SparseCoords` | cpp/SmurffCpp/DataTensors/TensorData.cpp:28-40 | the sparse table has `nnz` rows and `nmodes` columns with `idx(row, col) == columns[col][row]` everywhere |
| `TensorDatas.BuildViews` | cpp/SmurffCpp/DataTensors/TensorData.cpp:50-53 | exactly one view per mode, in mode order; view m is the rotation of the whole table for mode m |
| `TensorDatas.TensorData.FromDense` | cpp/SmurffCpp/DataTensors/TensorData.cpp:42-56 | the dense constructor keeps dims, has `nnz == Product(dims)`, observation c is the c-th cell, and every view is the rotation of the observations for its mode |
| `TensorDatas.TensorData.FromSparse` | cpp/SmurffCpp/DataTensors/TensorData.cpp:59-73 | the sparse constructor keeps dims and values, observation i has coordinate `columns[m][i]` in mode m, and every view is the rotation for its mode |
| `TensorDatas.TensorData.ViewsAreRotations` | cpp/SmurffCpp/DataTensors/TensorData.cpp:67-70 | views built by `Rotate` for every mode make the object valid: `Y(m)` exists exactly for `m < nmode()` and is the view of mode m |
| `SparseModes.Rotate` | cpp/SmurffCpp/DataTensors/TensorData.cpp:69 | a view's plane offset table starts at 0, does not decrease and ends at `nnz`, so the planes are in order, disjoint and cover `[0, nnz)`; it has one plane per coordinate value of its mode |
| `SparseModes.RotateIsRotation` | cpp/SmurffCpp/DataTensors/TensorData.cpp:69 | the built view is the view of its mode: plane h holds exactly the observations with coordinate h in that mode, in input order |
| `SparseModes.SparseMode.Pos` | cpp/SmurffCpp/DataTensors/TensorData.cpp:230 | `pos(h, j)` has `nmodes` entries, h in the view's mode, and row j's indices in the other modes in ascending order; `InsertDrop`/`DropInsert` show it is the inverse of dropping the mode |
| `SparseModes.SparseMode.Item` | cpp/SmurffCpp/DataTensors/TensorData.cpp:220 | `item(h, n)` is the coordinate and value of row `beginPlane(h) + n`, and its coordinate has h in the view's mode; `PlaneItem` shows it is an observation |
| `SparseModes.SparseMode.PlaneOf` | cpp/SmurffCpp/DataTensors/TensorData.cpp:94-96 | every row lies in exactly one plane, so the plane-by-plane loops visit each row once |
| `SparseModes.PlaneSizesTotal` | cpp/SmurffCpp/DataTensors/TensorData.cpp:94-96 | the plane sizes add up to `nnz`: the plane-by-plane loops visit every row |
| `SparseModes.PlaneItem` | cpp/SmurffCpp/DataTensors/TensorData.cpp:220 | item t of plane h is an observation whose coordinate in the view's mode is h |
| `SparseModes.PlaneCovers` | cpp/SmurffCpp/DataTensors/TensorData.cpp:220 | conversely, every observation is an item of the plane of its coordinate |
| `SparseModes.RotationPtr` | cpp/SmurffCpp/DataTensors/TensorData.cpp:96 | `beginPlane(h)` is the number of observations whose coordinate is below h |
| `SparseModes.RotationCount` | cpp/SmurffCpp/DataTensors/TensorData.cpp:110-113 | every view holds every observation: `nnz` rows |
| `SparseModes.RotationFold` | cpp/SmurffCpp/DataTensors/TensorData.cpp:173-181 | a per-item quantity added plane by plane, item by item, over a view equals its sum over the observations in input order |
| `SparseModes.RotationSum` | cpp/SmurffCpp/DataTensors/TensorData.cpp:94-100 | the value column of a view sums to the sum of all observed values |
| `SparseModes.InsertDrop` | cpp/SmurffCpp/DataTensors/TensorData.cpp:230 | putting back a dropped mode coordinate restores the full coordinate |
| `SparseModes.DropInsert` | cpp/SmurffCpp/DataTensors/TensorData.cpp:230 | dropping an inserted mode coordinate restores a view row |
| `TensorDatas.TensorData.Sum` | cpp/SmurffCpp/DataTensors/TensorData.cpp:87-103 | `sum()` is the sum of all observed values |
| `TensorDatas.SquaredErrorsOver` | cpp/SmurffCpp/DataTensors/TensorData.cpp:172-181 | sumsq's loop adds `(predict(item) - value)^2` over every item of the view, plane by plane |
| `TensorDatas.PlaneSquaredErrors` | cpp/SmurffCpp/DataTensors/TensorData.cpp:175-180 | the inner loop adds `(predict(item) - value)^2` over every item of plane h, in item order |
| `TensorDatas.TensorData.SumSq` | cpp/SmurffCpp/DataTensors/TensorData.cpp:166-184 | `sumsq(model)` is the sum over all observations of `(predict(coord) - value)^2` |
| `TensorDatas.SquaredDeviationsOver` | cpp/SmurffCpp/DataTensors/TensorData.cpp:193-201 | var_total's loop adds `(value - mean)^2` over every item of the view |
| `TensorDatas.TensorData.VarTotal` | cpp/SmurffCpp/DataTensors/TensorData.cpp:186-211 | `var_total()` is the variance of the values around their mean when that is positive, otherwise 1.0 (also when there are no observations); the result is always positive |
| `TensorDatas.VarianceNonNegative` | cpp/SmurffCpp/DataTensors/TensorData.cpp:203-204 | the variance is never negative, so the fallback is taken exactly when it is 0 |
| `TensorDatas.ConstantValuesHaveNoVariance` | cpp/SmurffCpp/DataTensors/TensorData.cpp:203-208 | values that are all equal have variance 0, so var_total falls back to 1.0 |
| `TensorDatas.TensorData.TrainRmse` | cpp/SmurffCpp/DataTensors/TensorData.cpp:128-131 | `train_rmse` is `sqrt(sumsq / nnz)`, and undefined exactly when `nnz == 0` |
| `TensorDatas.TensorData.NMode` | cpp/SmurffCpp/DataTensors/TensorData.cpp:105-108 | `nmode()` is the number of views |
| `TensorDatas.TensorData.Nnz` | cpp/SmurffCpp/DataTensors/TensorData.cpp:110-113 | `nnz()` is the number of values, and every view has that many rows |
| `TensorDatas.TensorData.Nna` | cpp/SmurffCpp/DataTensors/TensorData.cpp:115-118 | `nna()` is `size() - nnz()` when that is not negative, and otherwise wraps modulo 2^64 |
| `TensorDatas.TensorData.Item` | cpp/SmurffCpp/DataTensors/TensorData.cpp:213-221 | fails with InvalidMode exactly when `mode >= nmode()`; otherwise it returns an observation (coordinate and value) whose coordinate in `mode` is the hyperplane |
| `TensorDatas.TensorData.ItemIsObservation` | cpp/SmurffCpp/DataTensors/TensorData.cpp:220 | every item of every plane is one of the observations |
| `TensorDatas.TensorData.Pos` | cpp/SmurffCpp/DataTensors/TensorData.cpp:223-231 | fails with InvalidMode exactly when `mode >= nmode()`; otherwise it returns a full coordinate with the hyperplane in `mode`, and a row of that plane gives an observation's coordinate |
| `TensorDatas.TensorData.RowIsObservation` | cpp/SmurffCpp/DataTensors/TensorData.cpp:230 | `pos(h, j)` of a row j inside plane h is an observed coordinate |
| `TensorDatas.RowOf` | cpp/SmurffCpp/DataTensors/TensorData.cpp:144-150 | getMuLambda's inner loop yields the elementwise product of the other modes' latent vectors that the row's indices select, in ascending mode order |
| `TensorDatas.OtherModesRowIsProduct` | cpp/SmurffCpp/DataTensors/TensorData.cpp:144-150 | that row is the model's product of the latent vectors of every mode but `mode` at the observation's model coordinate |
| `TensorDatas.RowIsOtherProduct` | cpp/SmurffCpp/DataTensors/TensorData.cpp:144-150 | for the cell formed by putting h back into a view row, the row getMuLambda forms is the product of the latent vectors of all modes but `mode` at that cell, and item h's latent vector is the cell's column in `mode` |
| `TensorDatas.RowPredicts` | cpp/SmurffCpp/DataTensors/TensorData.cpp:144-150 | the row's dot product with item h's latent vector is the SubModel's prediction at that cell |
| `TensorDatas.AddLowerOuter` | cpp/SmurffCpp/DataTensors/TensorData.cpp:151 | `MM`'s entries on and below the diagonal gain `alpha * row[r] * row[c]`; the others are unchanged |
| `TensorDatas.AddScaled` | cpp/SmurffCpp/DataTensors/TensorData.cpp:155 | `rr[l]` gains `row[l] * noisy_val` |
| `TensorDatas.MirrorLower` | cpp/SmurffCpp/DataTensors/TensorData.cpp:158 | every entry on or above the diagonal takes the value of its mirror below; the lower triangle is unchanged |
| `TensorDatas.AddRow` | cpp/SmurffCpp/DataTensors/TensorData.cpp:151-155 | one iteration of the row loop extends the accumulated weighted sum and lower Gram sum by one row |
| `TensorDatas.AccumulatePlane` | cpp/SmurffCpp/DataTensors/TensorData.cpp:142-156 | after the row loop, `rr` holds its old value plus the noisy-weighted rows of the plane, and the lower triangle of `MM` holds its old value plus the alpha-weighted Gram sum |
| `TensorDatas.MuLambdaOnPlane` | cpp/SmurffCpp/DataTensors/TensorData.cpp:137-159 | getMuLambda on one view: rr gains the weighted rows, `MM` is the old lower triangle plus the Gram sum mirrored, and `MM` is symmetric |
| `TensorDatas.TensorData.GetMuLambda` | cpp/SmurffCpp/DataTensors/TensorData.cpp:137-159 | the same for view `mode`; for an empty plane `rr` is unchanged, and `MM` is symmetric afterwards |
| `TensorDatas.MirroredGram` | cpp/SmurffCpp/DataTensors/TensorData.cpp:151-158 | mirroring a lower triangle that holds the old lower triangle plus the Gram sum gives the old lower triangle mirrored plus the whole Gram sum, and the result is symmetric |
| `TensorDatas.GramSymmetric` | cpp/SmurffCpp/DataTensors/TensorData.cpp:151 | a sum of `alpha * row * row^T` is symmetric |
| `TensorDatas.TensorData.PlaneRowIsObservation` | cpp/SmurffCpp/DataTensors/TensorData.cpp:153-154 | row j of plane d comes from an observation with coordinate d in `mode`: `pos(d, j)` is its coordinate, the row's indices are its other coordinates, and the row's value is its value |
| `TensorDatas.TensorData.PlaneFitsFromData` | cpp/SmurffCpp/DataTensors/TensorData.cpp:144-149 | a model that covers every observation covers every row getMuLambda reads |
| `TensorDatas.TensorData.PlaneRowPredicts` | cpp/SmurffCpp/DataTensors/TensorData.cpp:142-155 | each accumulated row comes from an observation with coordinate d: its dot product with item d's latent vector is the prediction for that observation, and its noisy value is the noise model's for it |
| `Models.Model.Predict` | lib/smurff-cpp/SmurffCpp/Model.h:56-58 | `predict(pos)` is the sum of the elementwise product of the columns `pos` selects: the "dot product" of those columns |
| `Models.AddPosShift` | lib/smurff-cpp/SmurffCpp/Model.h:128-129 | shifting a coordinate by an inner offset and then an outer one equals shifting by their sum, in either order |
| `Models.PredictTwoModesIsDot` | lib/smurff-cpp/SmurffCpp/Model.h:56-58 | with two modes, `predict((i, j))` is the dot product of column i of U(0) and column j of U(1) |
| `Models.PredictExample` | lib/smurff-cpp/SmurffCpp/Model.h:56-58 | a worked instance: L = 1, U(0) = [2 3], U(1) = [4 5] gives 10 at (0, 1) and 12 at (1, 0) |
| `Models.ColumnProductSplit` | lib/smurff-cpp/SmurffCpp/Model.h:56-58 | the product of all selected columns is the product of the other modes' columns times that of any one mode |
| `Models.PredictSplit` | lib/smurff-cpp/SmurffCpp/Model.h:56-58 | `predict(pos)` is linear in any one mode's latent vector: its dot product with the other modes' product |
| `Models.Nest` | lib/smurff-cpp/SmurffCpp/Model.h:128-129 | a view of a view shares the model, takes the given dims and has offset `o + m.m_off` |
| `Models.Full` | lib/smurff-cpp/SmurffCpp/Model.h:131-132 | the full view has the model's dims and an offset of `nmodes()` zeros |
| `Models.ViewShape` | lib/smurff-cpp/SmurffCpp/Model.h:148-157 | `nlatent()` and `nmodes()` of any view are the model's |
| `Models.SubModel.Predict` | lib/smurff-cpp/SmurffCpp/Model.h:142-145 | a view predicts the sum of the elementwise product of the model's columns selected by `m_off + pos` |
| `Models.FullPredict` | lib/smurff-cpp/SmurffCpp/Model.h:142-145 | the full view predicts exactly what the model predicts |
| `Models.NestPredict` | lib/smurff-cpp/SmurffCpp/Model.h:142-145 | a nested view predicts what the inner view predicts at the coordinate shifted by the outer offset, so offsets add up |
| `Models.PredictLatent` | lib/smurff-cpp/SmurffCpp/Model.h:161-172 | fails with OutOfRange for a mode outside the link table and with NoLinkMatrix when no link matrix is stored; otherwise entry l is `(beta * f)[l]` plus the mean of latent row l of U(mode), and the length is `nlatent()` |
| `Models.LatentOfZeroFeatures` | lib/smurff-cpp/SmurffCpp/Model.h:169 | with an all-zero feature vector the latent vector is the mean latent vector of the mode |
| `Models.OtherMode` | lib/smurff-cpp/SmurffCpp/Model.h:182 | `(mode + 1) % 2` is the other of {0, 1} |
| `Models.PredictFromFeatures` | lib/smurff-cpp/SmurffCpp/Model.h:174-187 | fails with OnlyTwoModes exactly when `nmodes() != 2`; otherwise it fails exactly when `predict_latent` fails, and entry i is the latent vector's dot product with column i of U(othermode), over `dims[othermode]` entries |
| `Models.ScoreColumnOfItem` | lib/smurff-cpp/SmurffCpp/Model.h:182-184 | scoring item k's own latent vector reproduces `predict` at cell (k, i) or (i, k) |

## Left out

- Names, `info()` and other stream output, `dim()` (a cast of `dims` to `int`), and the empty
  `init_pre`/`update_pnm` hooks are not modelled. They compute nothing the rest depends on.
- `Y(mode)` is not a member: the model reads the field `Y[mode]` directly.
- OpenMP `reduction` pragmas: every sum is sequential over exact reals, with no floating-point
  rounding and no reassociation.
- SparseMode.cpp is not part of this model. A view is modelled by what TensorData.cpp uses of it,
  which is its planes, rows, values, `item` and `pos`. `Rotate` builds it as a stable bucketing by
  the mode coordinate, and `IsRotation` specifies it. A row holds the observation's coordinates in
  the other modes, in ascending mode order, because `getMuLambda` reads them against the other
  modes' factor matrices in that order.
- Model.cpp is not part of this model. `Model.predict(pos)` follows the declaration's comment,
  "dot product of i'th columns in each U matrix", as the sum over latent rows of the product of
  the selected entries. `U(f)` is read as `L x dims[f]`: column i is item i's latent vector, and
  `getMuLambda`'s `.row(i)` of a V matrix is read as that same vector.
- `U(mode).colwise().mean()` in `predict_latent` is read as the mean latent vector: the mean over
  the mode's items of each latent row, with length L. That is the only reading under which it adds
  to `beta * f`, which has length L. `FeaturesFit` states what the source leaves to its callers:
  the feature length matches the link matrix, and the mode has at least one item.
- The noise model is left out. `noise().getAlpha()` becomes the parameter `alpha`, and
  `noise().sample(model, pos, value)` becomes the function parameter `noisy`.
- `std::sqrt` becomes a function parameter of `TrainRmse`.
- Floating-point NaN is left out. Where the source divides 0 by 0, the model says what follows:
  `var_total` falls back to 1.0 and `TrainRmse` returns `None`.
- `size()` (Data's, not part of this model) is taken to be the product of the dims as a `uint64`,
  that is modulo 2^64. `nna()` wraps modulo 2^64 the same way. Other integer widths (the `uint32`
  table entries, `int d`) are unbounded.
- TensorDatas.TensorData.GetMuLambda: the source indexes `m_Y` with no mode check, so the model
  requires `mode < nmode()` and `d < dims[mode]`. It also requires at least two modes, because the
  source reads `indices(j, 0)` and would then read past an empty row. It requires that the
  SubModel covers every row of the plane.
- TensorDatas.TensorData.Item and Pos require the hyperplane and row to exist when the mode is
  valid, because SparseMode's own bounds handling is not part of this model.
- TensorDatas.TensorData.FromSparse requires every coordinate column to have `nnz` entries, each below its mode's dimension. TensorData.cpp:59-73 does not check this: shape checks belong to the SparseTensor it is given, whose construction is not part of this model.
- TensorDatas.TensorData.Sum, SumSq, VarTotal and TrainRmse require at least one mode, because they read the view `Y(0)`, which does not exist when there are no modes.
- `SparseMode::pos(h, j)` takes j as an absolute row, as getMuLambda uses it (TensorData.cpp:153), although `TensorData::pos` (TensorData.cpp:224-231) names that argument `item`.
- `*latent * U(othermode).transpose()` in `predict(mode, f)` (Model.h:184) is an `(L x 1) * (dim x L)` product under the `L x dim` reading of `U`; the model computes `latent^T * U(othermode)`, entry i being the dot product with item i's latent vector.
- PVecIterator's own source is not part of this model. `First`/`Next` assume the last mode runs fastest, as the row-major order of the dense constructor's table implies, and that iteration ends at once when a dimension is 0.
- `predict(mode, f)` rejects every `nmodes() != 2` ("Only implemented for modes == 2"); the model
  follows that code.
