/** The reserve and user records and the reserve's configured parameters. */
module Records {
  datatype RateMode = Unset | Stable | Variable

  datatype ReserveParams = ReserveParams(
    optimalUtilizationRate: int,
    baseVariableBorrowRate: int,
    variableRateSlope1: int,
    variableRateSlope2: int,
    stableRateSlope1: int,
    stableRateSlope2: int,
    reserveFactor: int)

  datatype ReserveData = ReserveData(
    totalLiquidity: int,
    availableLiquidity: int,
    totalStableDebt: int,
    totalVariableDebt: int,
    principalStableDebt: int,
    scaledVariableDebt: int,
    averageStableBorrowRate: int,
    variableBorrowRate: int,
    stableBorrowRate: int,
    utilizationRate: int,
    liquidityIndex: int,
    variableBorrowIndex: int,
    marketStableRate: int,
    lastUpdateTimestamp: int,
    totalStableDebtLastUpdated: int,
    liquidityRate: int)

  datatype UserReserveData = UserReserveData(
    scaledATokenBalance: int,
    currentATokenBalance: int,
    currentStableDebt: int,
    currentVariableDebt: int,
    principalStableDebt: int,
    scaledVariableDebt: int,
    liquidityRate: int,
    stableBorrowRate: int,
    stableRateLastUpdated: int,
    usageAsCollateralEnabled: bool,
    walletBalance: int)
}
