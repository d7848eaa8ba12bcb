TestResult.DisplayName,TestResult.Outcome,TestResult.Duration,TestResult.ResourceCount,RandomSeed
Orders.ValidPrefixCons (correctness),Passed,00:00:00.4176533,629026,2
Orders.ValidPrefixCons (well-formedness),Passed,00:00:00.2182373,66176,2
