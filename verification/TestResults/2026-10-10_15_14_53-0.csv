TestResult.DisplayName,TestResult.Outcome,TestResult.Duration,TestResult.ResourceCount,RandomSeed
Orders.ValidPrefixCons (well-formedness),Passed,00:00:00.3726001,65955,1
Orders.ValidPrefixCons (correctness),Passed,00:00:00.3175126,96887,1
